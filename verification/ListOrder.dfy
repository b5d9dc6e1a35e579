/** Sequences of original positions, ordered by key with ties broken by position, and lists made of
    sorted runs. A sequence strictly ordered this way is both sorted and stable. The key map holds
    only the positions whose key is already fixed, and it only ever grows. */
module ListOrder {
  type Keys = map<int, int>

  ghost predicate Extends(key: Keys, key': Keys) {
    forall x :: x in key ==> x in key' && key'[x] == key[x]
  }

  lemma ExtendsTransitive(key: Keys, key': Keys, key'': Keys)
    ensures Extends(key, key)
    ensures Extends(key, key') && Extends(key', key'') ==> Extends(key, key'')
  {
  }

  /** x belongs before y: by key, and among equal keys by original position. */
  ghost predicate Before(x: int, y: int, key: Keys) {
    x in key && y in key && (key[x] < key[y] || (key[x] == key[y] && x < y))
  }

  ghost predicate Sorted(s: seq<int>, key: Keys) {
    && (forall i :: 0 <= i < |s| ==> s[i] in key)
    && (forall i, j :: 0 <= i < j < |s| ==> Before(s[i], s[j], key))
  }

  /** A run of one element was never compared, so its key need not be fixed. */
  ghost predicate Run(s: seq<int>, key: Keys) {
    |s| <= 1 || Sorted(s, key)
  }

  ghost predicate AllBefore(s: seq<int>, t: seq<int>, key: Keys) {
    forall i, j :: 0 <= i < |s| && 0 <= j < |t| ==> Before(s[i], t[j], key)
  }

  /** Every position in s is smaller than every position in t. */
  ghost predicate Earlier(s: seq<int>, t: seq<int>) {
    forall i, j :: 0 <= i < |s| && 0 <= j < |t| ==> s[i] < t[j]
  }

  /** What holds between two steps of a merge: out is sorted, and so is what is left of p and of q,
      all of it after out. */
  ghost predicate Merging(out: seq<int>, p: seq<int>, q: seq<int>, key: Keys) {
    && Sorted(out, key) && Sorted(p, key) && Sorted(q, key)
    && AllBefore(out, p, key) && AllBefore(out, q, key)
    && Earlier(p, q)
  }

  lemma TakeLeft(out: seq<int>, p: seq<int>, q: seq<int>, key: Keys)
    requires Merging(out, p, q, key)
    requires |p| > 0 && (|q| > 0 ==> key[p[0]] <= key[q[0]])
    ensures Merging(out + [p[0]], p[1..], q, key)
  {
    forall j | 0 <= j < |q| ensures Before(p[0], q[j], key) {
      assert key[q[0]] <= key[q[j]] by { if j > 0 { assert Before(q[0], q[j], key); } }
    }
  }

  lemma TakeRight(out: seq<int>, p: seq<int>, q: seq<int>, key: Keys)
    requires Merging(out, p, q, key)
    requires |q| > 0 && (|p| > 0 ==> key[q[0]] < key[p[0]])
    ensures Merging(out + [q[0]], p, q[1..], key)
  {
    forall i | 0 <= i < |p| ensures Before(q[0], p[i], key) {
      assert key[p[0]] <= key[p[i]] by { if i > 0 { assert Before(p[0], p[i], key); } }
    }
  }

  /** The merge of runs P and Q, with seg put out and p, q left. The keys of a run of one are fixed by
      the first comparison, which happens at once unless Q is empty. */
  ghost predicate Progress(seg: seq<int>, p: seq<int>, q: seq<int>, P: seq<int>, Q: seq<int>, key: Keys) {
    && Run(P, key) && Run(Q, key) && Earlier(P, Q) && P != []
    && (Q == [] ==> q == [] && seg + p == P)
    && (Q != [] && seg == [] ==> p == P && q == Q)
    && (Q != [] && seg != [] ==> Merging(seg, p, q, key))
  }

  lemma RunExtend(s: seq<int>, key: Keys, key': Keys)
    requires Run(s, key) && Extends(key, key')
    ensures Run(s, key')
    ensures s != [] && s[0] in key' ==> Sorted(s, key')
  {
    if |s| >= 2 { SortedExtend(s, key, key'); }
  }

  lemma SortedExtend(s: seq<int>, key: Keys, key': Keys)
    requires Sorted(s, key) && Extends(key, key')
    ensures Sorted(s, key')
  {
    forall i, j | 0 <= i < j < |s| ensures Before(s[i], s[j], key') {
      assert Before(s[i], s[j], key);
    }
  }

  lemma AllBeforeExtend(s: seq<int>, t: seq<int>, key: Keys, key': Keys)
    requires AllBefore(s, t, key) && Extends(key, key')
    ensures AllBefore(s, t, key')
  {
    forall i, j | 0 <= i < |s| && 0 <= j < |t| ensures Before(s[i], t[j], key') {
      assert Before(s[i], t[j], key);
    }
  }

  lemma MergingExtend(seg: seq<int>, p: seq<int>, q: seq<int>, key: Keys, key': Keys)
    requires Merging(seg, p, q, key) && Extends(key, key')
    ensures Merging(seg, p, q, key')
  {
    hide Sorted, AllBefore, Earlier, Extends;
    SortedExtend(seg, key, key');
    SortedExtend(p, key, key');
    SortedExtend(q, key, key');
    AllBeforeExtend(seg, p, key, key');
    AllBeforeExtend(seg, q, key, key');
  }

  lemma StepLeft(seg: seq<int>, p: seq<int>, q: seq<int>, P: seq<int>, Q: seq<int>, key: Keys, key': Keys)
    requires Progress(seg, p, q, P, Q, key) && Extends(key, key') && p != []
    requires q != [] ==> p[0] in key' && q[0] in key' && key'[p[0]] <= key'[q[0]]
    ensures Progress(seg + [p[0]], p[1..], q, P, Q, key')
  {
    RunExtend(P, key, key');
    RunExtend(Q, key, key');
    if Q == [] {
      assert seg + [p[0]] + p[1..] == seg + p;
    } else {
      if seg != [] { MergingExtend(seg, p, q, key, key'); }
      TakeLeft(seg, p, q, key');
    }
  }

  lemma StepRight(seg: seq<int>, p: seq<int>, q: seq<int>, P: seq<int>, Q: seq<int>, key: Keys, key': Keys)
    requires Progress(seg, p, q, P, Q, key) && Extends(key, key') && q != []
    requires p != [] ==> p[0] in key' && q[0] in key' && key'[q[0]] < key'[p[0]]
    ensures Progress(seg + [q[0]], p, q[1..], P, Q, key')
  {
    RunExtend(P, key, key');
    RunExtend(Q, key, key');
    if seg != [] { MergingExtend(seg, p, q, key, key'); }
    TakeRight(seg, p, q, key');
  }

  lemma MergeDone(seg: seq<int>, P: seq<int>, Q: seq<int>, key: Keys)
    requires Progress(seg, [], [], P, Q, key)
    ensures Run(seg, key)
  {
    if Q == [] {
      assert seg + [] == seg;
    }
  }

  /** s is a list of runs of w elements (the last may be shorter), in order of original position. */
  ghost predicate Runs(s: seq<int>, w: nat, key: Keys)
    requires w > 0
    decreases |s|
  {
    if |s| <= w then Run(s, key)
    else Run(s[..w], key) && Earlier(s[..w], s[w..]) && Runs(s[w..], w, key)
  }

  lemma FirstRun(s: seq<int>, k: nat, w: nat, key: Keys)
    requires w > 0 && Runs(s, w, key) && k == if |s| <= w then |s| else w
    ensures Run(s[..k], key) && Earlier(s[..k], s[k..]) && Runs(s[k..], w, key)
  {
    if |s| <= w {
      assert s[..k] == s && s[k..] == [];
    }
  }

  /** The length of s is a multiple of w. */
  ghost predicate Whole(s: seq<int>, w: nat)
    requires w > 0
    decreases |s|
  {
    s == [] || (|s| >= w && Whole(s[w..], w))
  }

  lemma {:induction false} RunsExtend(s: seq<int>, w: nat, key: Keys, key': Keys)
    requires w > 0 && Runs(s, w, key) && Extends(key, key')
    ensures Runs(s, w, key')
    decreases |s|
  {
    if |s| <= w {
      RunExtend(s, key, key');
    } else {
      RunExtend(s[..w], key, key');
      RunsExtend(s[w..], w, key, key');
    }
  }

  /** Appending one more run to whole runs. */
  lemma {:induction false} RunsAppend(s: seq<int>, r: seq<int>, w: nat, key: Keys)
    requires w > 0 && Whole(s, w) && Runs(s, w, key)
    requires |r| <= w && Run(r, key) && Earlier(s, r)
    ensures Runs(s + r, w, key)
    ensures |r| == w ==> Whole(s + r, w)
    decreases |s|
  {
    if s == [] {
      assert s + r == r;
      assert |r| == w ==> r[w..] == [];
    } else {
      assert (s + r)[..w] == s[..w] && (s + r)[w..] == s[w..] + r;
      assert Runs(s[w..], w, key) by { if |s| == w { assert s[w..] == []; } }
      RunsAppend(s[w..], r, w, key);
      if |s + r| <= w {
        assert r == [] && s + r == s;
      } else {
        assert Run(s[..w], key) by { if |s| == w { assert s[..w] == s; } }
      }
    }
  }

  /** Positions in order are runs of one. */
  lemma {:induction false} SingletonRuns(s: seq<int>, key: Keys)
    requires forall i, j :: 0 <= i < j < |s| ==> s[i] < s[j]
    ensures Runs(s, 1, key)
    decreases |s|
  {
    if |s| > 1 { SingletonRuns(s[1..], key); }
  }
}
