/** The replacement of the cache is truly least-recently-used: the counters of a set rank its ways by
    when they were last hit. */
module CacheLru {
  import opened LineMemory
  import opened Cache
  import opened MemorySystem

  // ----- counting ways hit after a given time

  /** How many of the first n valid ways were hit after time x. */
  ghost function After(ways: seq<Way>, hits: seq<int>, x: int, n: nat): (r: nat)
    requires n <= |ways| == |hits|
    ensures r <= n
  {
    if n == 0 then 0 else After(ways, hits, x, n - 1) + if Counts(ways, hits, x, n - 1) then 1 else 0
  }

  predicate Counts(ways: seq<Way>, hits: seq<int>, x: int, w: nat)
    requires w < |ways| == |hits|
  {
    ways[w].valid && hits[w] > x
  }

  /** Ways that do not count leave room. */
  lemma {:induction false} AfterRoom(ways: seq<Way>, hits: seq<int>, x: int, n: nat, u: nat, v: nat)
    requires n <= |ways| == |hits| && u < |ways| && v < |ways| && !Counts(ways, hits, x, u) && !Counts(ways, hits, x, v)
    ensures After(ways, hits, x, n) + (if u < n then 1 else 0) + (if v < n && v != u then 1 else 0) <= n
  {
    if n > 0 { AfterRoom(ways, hits, x, n - 1, u, v); }
  }

  /** All but one way count, or some other does not. */
  lemma {:induction false} AfterAll(ways: seq<Way>, hits: seq<int>, x: int, n: nat, w: nat)
    requires n <= |ways| == |hits| && w < |ways| && !Counts(ways, hits, x, w)
    ensures After(ways, hits, x, n) + (if w < n then 1 else 0) == n <==>
      forall u: nat | u < n && u != w :: Counts(ways, hits, x, u)
  {
    if n > 0 {
      AfterAll(ways, hits, x, n - 1, w);
      AfterRoom(ways, hits, x, n - 1, w, w);
    }
  }

  /** A later time is exceeded by no more ways, and by fewer when a way lies between. */
  lemma {:induction false} AfterLater(ways: seq<Way>, hits: seq<int>, x: int, y: int, n: nat)
    requires n <= |ways| == |hits| && x <= y
    ensures After(ways, hits, y, n) <= After(ways, hits, x, n)
    ensures (exists w: nat :: w < n && Counts(ways, hits, x, w) && !Counts(ways, hits, y, w)) ==>
      After(ways, hits, y, n) < After(ways, hits, x, n)
  {
    if n > 0 { AfterLater(ways, hits, x, y, n - 1); }
  }

  /** Only way k changes whether it counts. */
  lemma {:induction false} AfterChange(ways: seq<Way>, hits: seq<int>, ways': seq<Way>, hits': seq<int>, x: int, n: nat,
                                       k: nat)
    requires n <= |ways| == |hits| == |ways'| == |hits'| && k < |ways|
    requires forall w: nat | w < |ways| && w != k :: Counts(ways', hits', x, w) == Counts(ways, hits, x, w)
    ensures After(ways', hits', x, n) == After(ways, hits, x, n)
      + (if k < n && Counts(ways', hits', x, k) then 1 else 0) - (if k < n && Counts(ways, hits, x, k) then 1 else 0)
  {
    if n > 0 { AfterChange(ways, hits, ways', hits', x, n - 1, k); }
  }

  // ----- one set

  const NEVER := -1

  /** The counters of a set, given when each way was last hit since it was filled. */
  ghost predicate Ranked(ways: seq<Way>, hits: seq<int>) {
    && |ways| == |hits| > 0
    && (forall w: nat | w < |ways| :: (!ways[w].valid || hits[w] == NEVER) ==> ways[w].lru == |ways| - 1)
    && (forall w: nat | w < |ways| :: ways[w].valid && hits[w] != NEVER ==>
       ways[w].lru == After(ways, hits, hits[w], |ways|))
    && (forall w: nat, v: nat | w < |ways| && v < |ways| && w != v && ways[w].valid && ways[v].valid
       && hits[w] != NEVER :: hits[w] != hits[v])
    && (forall w: nat | w < |ways| :: hits[w] >= NEVER)
  }

  /** All valid ways have been hit since they were filled. */
  ghost predicate AllHit(ways: seq<Way>, hits: seq<int>) {
    |ways| == |hits| && forall w: nat | w < |ways| :: ways[w].valid ==> hits[w] != NEVER
  }

  /** All but k. */
  ghost predicate AllHitBut(ways: seq<Way>, hits: seq<int>, k: nat) {
    |ways| == |hits| && forall w: nat | w < |ways| && w != k :: ways[w].valid ==> hits[w] != NEVER
  }

  /** A hit on way k at a time later than all before. */
  lemma HitRanks(ways: seq<Way>, hits: seq<int>, k: nat, now: nat, ways': seq<Way>)
    requires Ranked(ways, hits) && k < |ways| && ways[k].valid && AllHitBut(ways, hits, k)
    requires forall w: nat | w < |ways| :: hits[w] < now
    requires |ways'| == |ways|
    requires forall w: nat | w < |ways| :: ways'[w].valid == ways[w].valid && ways'[w].lru == Touched(ways, k)[w].lru
    ensures Ranked(ways', hits[k := now]) && AllHit(ways', hits[k := now])
  {
    var n, hits' := |ways|, hits[k := now];
    forall w: nat | w < n && ways[w].valid
      ensures ways'[w].lru == After(ways', hits', hits'[w], n)
    {
      if w == k {
        NoneAfter(ways', hits', now, n);
      } else {
        AfterChange(ways, hits, ways', hits', hits[w], n, k);
        if hits[k] == NEVER {
          AfterRoom(ways, hits, hits[w], n, k, w);
        } else if hits[w] > hits[k] {
          assert Counts(ways, hits, hits[k], w) && !Counts(ways, hits, hits[w], w);
          AfterLater(ways, hits, hits[k], hits[w], n);
        } else {
          AfterLater(ways, hits, hits[w], hits[k], n);
        }
      }
    }
  }

  lemma {:induction false} NoneAfter(ways: seq<Way>, hits: seq<int>, x: int, n: nat)
    requires n <= |ways| == |hits| && forall w: nat | w < |ways| :: hits[w] <= x
    ensures After(ways, hits, x, n) == 0
  {
    if n > 0 { NoneAfter(ways, hits, x, n - 1); }
  }

  /** When all ways are valid and hit, the one that get_index picks on a miss was hit longest ago. */
  lemma OldestIsPicked(ways: seq<Way>, hits: seq<int>, tag: nat)
    requires Ranked(ways, hits) && AllHit(ways, hits) && !IsHit(ways, tag)
    requires forall w: nat | w < |ways| :: ways[w].valid
    ensures var k := Selected(ways, tag);
      ways[k].lru == |ways| - 1 && forall w: nat | w < |ways| && w != k :: hits[k] < hits[w]
  {
    var n := |ways|;
    var m := EarliestHit(ways, hits, n);
    AfterAll(ways, hits, hits[m], n, m);
    var k := Selected(ways, tag);
    assert ways[m].lru + 1 == n;
    AfterAll(ways, hits, hits[k], n, k);
    forall w: nat | w < n && w != k ensures hits[k] < hits[w] {
      assert Counts(ways, hits, hits[k], w);
    }
  }

  lemma {:induction false} EarliestHit(ways: seq<Way>, hits: seq<int>, n: nat) returns (m: nat)
    requires 0 < n <= |ways| == |hits|
    ensures m < n && forall w: nat | w < n :: hits[m] <= hits[w]
  {
    if n == 1 {
      m := 0;
    } else {
      m := EarliestHit(ways, hits, n - 1);
      if hits[n - 1] < hits[m] { m := n - 1; }
    }
  }

  /** A miss takes a free way if there is one. */
  lemma FreeIsPicked(ways: seq<Way>, tag: nat)
    requires |ways| > 0 && !IsHit(ways, tag) && exists w :: 0 <= w < |ways| && !ways[w].valid
    ensures !ways[Selected(ways, tag)].valid
  {
    var w :| 0 <= w < |ways| && !ways[w].valid;
    assert Fits(ways[w], Free, |ways|);
  }

  /** Refilling the picked way, which has not been hit since. */
  lemma FillRanks(ways: seq<Way>, hits: seq<int>, tag: nat, ways': seq<Way>)
    requires Ranked(ways, hits) && AllHit(ways, hits) && !IsHit(ways, tag)
    requires var k := Selected(ways, tag);
      |ways'| == |ways| && ways'[k].valid && ways'[k].lru == ways[k].lru
      && forall w: nat | w < |ways| && w != k :: ways'[w] == ways[w]
    ensures var k := Selected(ways, tag);
      Ranked(ways', hits[k := NEVER]) && AllHitBut(ways', hits[k := NEVER], k)
  {
    var n, k := |ways|, Selected(ways, tag);
    var hits' := hits[k := NEVER];
    if exists w :: 0 <= w < n && !ways[w].valid { FreeIsPicked(ways, tag); } else { OldestIsPicked(ways, hits, tag); }
    forall w: nat | w < n && w != k && ways[w].valid
      ensures ways'[w].lru == After(ways', hits', hits'[w], n)
    {
      AfterChange(ways, hits, ways', hits', hits[w], n, k);
    }
  }

  lemma RankedSame(ways: seq<Way>, hits: seq<int>, ways': seq<Way>)
    requires Ranked(ways, hits) && |ways'| == |ways|
    requires forall w: nat | w < |ways| :: ways'[w].valid == ways[w].valid && ways'[w].lru == ways[w].lru
    ensures Ranked(ways', hits)
  {
    forall w: nat | w < |ways| && ways[w].valid && hits[w] != NEVER
      ensures ways'[w].lru == After(ways', hits, hits[w], |ways|)
    {
      AfterChange(ways, hits, ways', hits, hits[w], |ways|, 0);
    }
  }

  // ----- runs

  /** When way w of set i was last hit since it was filled. */
  type LastHits = (nat, nat) -> int

  function HitsOf(hits: LastHits, i: nat, n: nat): seq<int> {
    seq(n, w requires 0 <= w < n => hits(i, w))
  }

  function Set(hits: LastHits, i: nat, w: nat, time: int): LastHits {
    (j: nat, v: nat) => if j == i && v == w then time else hits(j, v)
  }

  /** A hit in cycle now is recorded; a refill starts afresh. */
  function HitsStep(hits: LastHits, s: System, c: Cycle, now: nat): LastHits
    requires Sized(s)
  {
    var i, k := IndexOf(LineOf(c.cpu), |s.cache.sets|), Selected(SetOf(s.cache, c.cpu), ReqTag(s.cache, c.cpu));
    if Answer(s, c).memResp then Set(hits, i, k, now)
    else if s.cache.phase == ReadMem && Step(s, c).cache.phase == CheckHit then Set(hits, i, k, NEVER)
    else hits
  }

  ghost function RunHits(start: System, cs: seq<Cycle>): LastHits
    requires Sized(start)
  {
    if cs == [] then (i, w) => NEVER
    else HitsStep(RunHits(start, cs[..|cs| - 1]), Run(start, cs[..|cs| - 1]), cs[|cs| - 1], |cs| - 1)
  }

  /** The request is about to hit the way that was refilled for it. */
  ghost predicate SetRanked(s: System, q: Request, hits: seq<int>, i: nat)
    requires Sized(s) && i < |s.cache.sets|
  {
    var ways, tag := s.cache.sets[i], ReqTag(s.cache, q);
    && Ranked(ways, hits)
    && (AllHit(ways, hits)
        || (s.cache.phase == CheckHit && Active(q) && i == IndexOf(LineOf(q), |s.cache.sets|)
            && IsHit(ways, tag) && AllHitBut(ways, hits, Selected(ways, tag))))
  }

  ghost predicate LruInv(s: System, q: Request, hits: LastHits, now: nat) {
    && Sized(s)
    && (forall i: nat | i < |s.cache.sets| :: SetRanked(s, q, HitsOf(hits, i, |s.cache.sets[i]|), i))
    && (forall i: nat, w: nat :: hits(i, w) < now)
  }

  lemma StartRanked(numSets: nat, numWays: nat, mem: nat -> Line, q: Request)
    requires numSets > 0 && numWays > 0
    ensures LruInv(Start(numSets, numWays, mem), q, (i, w) => NEVER, 0)
  {
    var s := Start(numSets, numWays, mem);
    forall i: nat | i < numSets
      ensures SetRanked(s, q, HitsOf((i, w) => NEVER, i, |s.cache.sets[i]|), i)
    {
      hide IndexOf, TagOf;
    }
  }

  /** The set of the request after a cycle. */
  lemma SetStep(s: System, c: Cycle, q': Request, plain: nat -> Line, hits: LastHits, now: nat)
    requires Inv(s, c.cpu, plain) && Holding(s, c, q') && LruInv(s, c.cpu, hits, now)
    ensures var i := IndexOf(LineOf(c.cpu), |s.cache.sets|);
      SetRanked(Step(s, c), q', HitsOf(HitsStep(hits, s, c, now), i, |s.cache.sets[i]|), i)
  {
    var i, tag := IndexOf(LineOf(c.cpu), |s.cache.sets|), ReqTag(s.cache, c.cpu);
    var s' := Step(s, c);
    var ways, ways', n := s.cache.sets[i], s'.cache.sets[i], |s.cache.sets[i]|;
    var k, h, h' := Selected(ways, tag), HitsOf(hits, i, n), HitsOf(HitsStep(hits, s, c, now), i, n);
    assert SetRanked(s, c.cpu, h, i);
    if Answer(s, c).memResp {
      assert h' == h[k := now];
      HitRanks(ways, h, k, now, ways');
    } else if s.cache.phase == ReadMem && s'.cache.phase == CheckHit {
      assert h' == h[k := NEVER];
      FillRanks(ways, h, tag, ways');
      assert !IsHit(ways, tag);
      HitIsSomewhere(ways', tag);
      HitIsSomewhere(ways, tag);
      OnlyHit(ways, ways', tag, k);
    } else {
      assert h' == h;
      RankedSame(ways, h, ways');
    }
  }

  /** After a miss the refilled way is the only one that holds the tag. */
  lemma OnlyHit(ways: seq<Way>, ways': seq<Way>, tag: nat, k: nat)
    requires |ways| == |ways'| > k && !IsHit(ways, tag) && ways'[k].valid && ways'[k].tag == tag
    requires forall w: nat | w < |ways| && w != k :: ways'[w] == ways[w]
    ensures IsHit(ways', tag) && Selected(ways', tag) == k
  {
    HitIsSomewhere(ways, tag);
    assert forall w: nat | w < |ways| :: !Fits(ways[w], Hit(tag), |ways|);
    assert Fits(ways'[k], Hit(tag), |ways|);
  }

  lemma LruStep(s: System, c: Cycle, q': Request, plain: nat -> Line, hits: LastHits, now: nat)
    requires Inv(s, c.cpu, plain) && Holding(s, c, q') && LruInv(s, c.cpu, hits, now)
    ensures LruInv(Step(s, c), q', HitsStep(hits, s, c, now), now + 1)
  {
    var index, hits', s' := IndexOf(LineOf(c.cpu), |s.cache.sets|), HitsStep(hits, s, c, now), Step(s, c);
    SetStep(s, c, q', plain, hits, now);
    forall i: nat | i < |s.cache.sets|
      ensures SetRanked(s', q', HitsOf(hits', i, |s'.cache.sets[i]|), i)
    {
      if i != index {
        assert s'.cache.sets[i] == s.cache.sets[i];
        assert SetRanked(s, c.cpu, HitsOf(hits, i, |s.cache.sets[i]|), i);
        assert HitsOf(hits', i, |s.cache.sets[i]|) == HitsOf(hits, i, |s.cache.sets[i]|);
        hide IndexOf, TagOf, Selected, Ranked, IsHit, Answer, Inv;
      }
    }
  }

  lemma {:induction false} RunLru(numSets: nat, numWays: nat, mem: nat -> Line, cs: seq<Cycle>, k: nat)
    requires numSets > 0 && numWays > 0 && Stable(Start(numSets, numWays, mem), cs) && k < |cs|
    ensures var start := Start(numSets, numWays, mem);
      LruInv(Run(start, cs[..k]), cs[k].cpu, RunHits(start, cs[..k]), k)
  {
    hide LruInv, Step, Start, HitsStep, RunHits, Run;
    if k == 0 {
      RunLruStart(numSets, numWays, mem, cs);
    } else {
      RunLru(numSets, numWays, mem, cs, k - 1);
      RunLruNext(numSets, numWays, mem, cs, k);
    }
  }

  lemma RunLruStart(numSets: nat, numWays: nat, mem: nat -> Line, cs: seq<Cycle>)
    requires numSets > 0 && numWays > 0 && |cs| > 0
    ensures var start := Start(numSets, numWays, mem);
      LruInv(Run(start, cs[..0]), cs[0].cpu, RunHits(start, cs[..0]), 0)
  {
    hide LruInv, Start, Step, HitsStep;
    StartRanked(numSets, numWays, mem, cs[0].cpu);
  }

  lemma RunLruNext(numSets: nat, numWays: nat, mem: nat -> Line, cs: seq<Cycle>, k: nat)
    requires numSets > 0 && numWays > 0 && Stable(Start(numSets, numWays, mem), cs) && 0 < k < |cs|
    requires var start := Start(numSets, numWays, mem);
      LruInv(Run(start, cs[..k - 1]), cs[k - 1].cpu, RunHits(start, cs[..k - 1]), k - 1)
    ensures var start := Start(numSets, numWays, mem);
      LruInv(Run(start, cs[..k]), cs[k].cpu, RunHits(start, cs[..k]), k)
  {
    var start := Start(numSets, numWays, mem);
    assert cs[..k][..k - 1] == cs[..k - 1];
    assert RunHits(start, cs[..k]) == HitsStep(RunHits(start, cs[..k - 1]), Run(start, cs[..k - 1]), cs[k - 1], k - 1);
    RunNext(start, cs, k - 1);
    assert HoldsAt(start, cs, k);
    hide Inv, LruInv, Step, Answer, Start, Plain, HitsStep, RunHits, Run, Active;
    RunInv(numSets, numWays, mem, cs, k - 1);
    LruStep(Run(start, cs[..k - 1]), cs[k - 1], cs[k].cpu, Plain(start, cs[..k - 1]), RunHits(start, cs[..k - 1]),
      k - 1);
  }

  /** A free way if there is one, and otherwise the way that was hit longest ago. */
  ghost predicate FreeOrOldest(ways: seq<Way>, victim: nat, hits: LastHits, i: nat)
    requires victim < |ways|
  {
    if exists w :: 0 <= w < |ways| && !ways[w].valid then !ways[victim].valid
    else forall w: nat | w < |ways| && w != victim :: hits(i, victim) < hits(i, w)
  }

  lemma MissPicks(s: System, q: Request, hits: LastHits, now: nat)
    requires LruInv(s, q, hits, now) && !IsHit(SetOf(s.cache, q), ReqTag(s.cache, q))
    ensures FreeOrOldest(SetOf(s.cache, q), Selected(SetOf(s.cache, q), ReqTag(s.cache, q)), hits,
      IndexOf(LineOf(q), |s.cache.sets|))
  {
    var i, tag := IndexOf(LineOf(q), |s.cache.sets|), ReqTag(s.cache, q);
    var ways := s.cache.sets[i];
    var h := HitsOf(hits, i, |ways|);
    assert SetRanked(s, q, h, i);
    if exists w :: 0 <= w < |ways| && !ways[w].valid {
      FreeIsPicked(ways, tag);
    } else {
      OldestIsPicked(ways, h, tag);
      var victim := Selected(ways, tag);
      hide IndexOf, TagOf, Ranked, Selected, IsHit;
      forall w: nat | w < |ways| && w != victim ensures hits(i, victim) < hits(i, w) {
        assert h[victim] < h[w];
      }
    }
  }

  /** On every run, when a request misses, the way that is given up is a free one if the set has one,
      and otherwise the one that was hit longest ago. */
  lemma LeastRecentlyUsed(numSets: nat, numWays: nat, mem: nat -> Line, cs: seq<Cycle>, k: nat)
    requires numSets > 0 && numWays > 0 && Stable(Start(numSets, numWays, mem), cs) && k < |cs|
    requires var s := Run(Start(numSets, numWays, mem), cs[..k]);
      !IsHit(SetOf(s.cache, cs[k].cpu), ReqTag(s.cache, cs[k].cpu))
    ensures var start := Start(numSets, numWays, mem);
      var s, q := Run(start, cs[..k]), cs[k].cpu;
      FreeOrOldest(SetOf(s.cache, q), Selected(SetOf(s.cache, q), ReqTag(s.cache, q)), RunHits(start, cs[..k]),
        IndexOf(LineOf(q), numSets))
  {
    hide Run, RunHits, Stable, IndexOf, TagOf, Ranked, Start, LruInv, FreeOrOldest, Selected, IsHit;
    var start := Start(numSets, numWays, mem);
    RunLru(numSets, numWays, mem, cs, k);
    MissPicks(Run(start, cs[..k]), cs[k].cpu, RunHits(start, cs[..k]), k);
  }
}
