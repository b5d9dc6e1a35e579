/** The instruction cache: a first-level cache that is never told to write. It holds its requests to the
    memory below, and what it says of a line that does not change there is what the line holds. */
module ReadOnlyCache {
  import opened LineMemory
  import opened Cache
  import opened MemorySystem

  predicate Shapely(cache: Cache.State) {
    |cache.sets| > 0 && forall i :: 0 <= i < |cache.sets| ==> |cache.sets[i]| > 0
  }

  /** No way has been written. */
  predicate Clean(cache: Cache.State) {
    forall i, w :: 0 <= i < |cache.sets| && 0 <= w < |cache.sets[i]| ==> !cache.sets[i][w].dirty
  }

  /** A line is fetched for a request that is there and does not hit. */
  predicate Fetching(cache: Cache.State, q: Request)
    requires Shapely(cache)
  {
    cache.phase == ReadMem ==> Active(q) && !IsHit(SetOf(cache, q), ReqTag(cache, q))
  }

  /** Ways with line a, but for skip, hold v. */
  predicate WaysHold(ways: seq<Way>, index: nat, numSets: nat, skip: nat, a: nat, v: Line) {
    forall w :: 0 <= w < |ways| && w != skip && ways[w].valid && LineAt(ways[w].tag, index, numSets) == a ==>
      ways[w].line == v
  }

  ghost predicate CacheHolds(cache: Cache.State, q: Request, a: nat, v: Line)
    requires Shapely(cache)
  {
    forall i: nat | i < |cache.sets| :: WaysHold(cache.sets[i], i, |cache.sets|, Skip(cache, q, i), a, v)
  }

  /** The request stays until the cycle that answers it. */
  predicate Held(cache: Cache.State, q: Request, q': Request)
    requires Shapely(cache)
  {
    Active(q) && !(cache.phase == CheckHit && IsHit(SetOf(cache, q), ReqTag(cache, q))) ==> q' == q
  }

  lemma TouchedClean(ways: seq<Way>, k: nat)
    requires k < |ways|
    ensures forall w :: 0 <= w < |ways| ==> Touched(ways, k)[w] == ways[w].(lru := Touched(ways, k)[w].lru)
  {
  }

  /** The set of the request after a clock edge. */
  lemma NextWaysAre(phase: Phase, ways: seq<Way>, tag: nat, q: Request, resp: bool, data: Line)
    requires |ways| > 0 && !q.write
    ensures var ways', k := NextWays(phase, ways, tag, q, resp, data), Selected(ways, tag);
      && (forall w :: 0 <= w < |ways| && w != k ==> ways'[w] == ways[w].(lru := ways'[w].lru))
      && ways'[k] == (if phase == CheckHit then ways[k].(lru := ways'[k].lru)
                      else if resp then Way(true, false, tag, data, ways[k].lru)
                      else ways[k].(dirty := false, line := data))
      && (phase == ReadMem ==> forall w :: 0 <= w < |ways| ==> ways'[w].lru == ways[w].lru)
  {
    TouchedClean(ways, Selected(ways, tag));
    hide Selected, Touched, IsHit;
  }

  lemma StaysClean(cache: Cache.State, q: Request, resp: bool, data: Line)
    requires Shapely(cache) && Clean(cache) && !q.write
    ensures Clean(Next(cache, q, resp, data)) && Shapely(Next(cache, q, resp, data))
  {
    NextWaysAre(cache.phase, SetOf(cache, q), ReqTag(cache, q), q, resp, data);
    hide NextWays, Selected, IndexOf, TagOf;
  }

  /** While a line is fetched the cache goes on asking for it, and it is the line of the request. */
  lemma HoldsCommand(cache: Cache.State, q: Request, q': Request, data: Line, noise: Line)
    requires Shapely(cache) && Clean(cache) && !q.write && Fetching(cache, q) && Held(cache, q, q')
    requires Drive(cache, q, noise).pmemRead
    ensures Drive(cache, q, noise).pmemLine == LineOf(q)
    ensures Drive(Next(cache, q, false, data), q', noise).pmemRead
    ensures Drive(Next(cache, q, false, data), q', noise).pmemLine == LineOf(q)
  {
    NextWaysAre(cache.phase, SetOf(cache, q), ReqTag(cache, q), q, false, data);
    hide NextWays, Selected, IndexOf, TagOf;
  }

  lemma NeverWrites(cache: Cache.State, q: Request, noise: Line)
    requires Shapely(cache) && Clean(cache)
    ensures !Drive(cache, q, noise).pmemWrite && Drive(cache, q, noise).pmemLine == LineOf(q)
    ensures forall x: Line :: Drive(cache, q, x).pmemRead == Drive(cache, q, noise).pmemRead
  {
    hide Selected, IsHit, IndexOf, TagOf;
  }

  lemma StaysFetching(cache: Cache.State, q: Request, resp: bool, data: Line, q': Request)
    requires Shapely(cache) && Clean(cache) && !q.write && Fetching(cache, q) && Held(cache, q, q')
    ensures Shapely(Next(cache, q, resp, data)) && Fetching(Next(cache, q, resp, data), q')
  {
    var ways, tag := SetOf(cache, q), ReqTag(cache, q);
    NextWaysAre(cache.phase, ways, tag, q, resp, data);
    var cache' := Next(cache, q, resp, data);
    if cache'.phase == ReadMem {
      if cache.phase == ReadMem { SelectedSame(ways, SetOf(cache', q), tag); }
      hide NextWays, Selected, IndexOf, TagOf;
    }
  }

  /** The set of the request goes on holding v. */
  lemma SetGoesOn(cache: Cache.State, q: Request, resp: bool, data: Line, q': Request, a: nat, v: Line)
    requires Shapely(cache) && Clean(cache) && !q.write && Fetching(cache, q) && Held(cache, q, q')
    requires CacheHolds(cache, q, a, v)
    requires cache.phase == ReadMem && resp && LineOf(q) == a ==> data == v
    ensures Shapely(Next(cache, q, resp, data))
    ensures var cache', i := Next(cache, q, resp, data), IndexOf(LineOf(q), |cache.sets|);
      WaysHold(cache'.sets[i], i, |cache.sets|, Skip(cache', q', i), a, v)
  {
    var ways, tag, i := SetOf(cache, q), ReqTag(cache, q), IndexOf(LineOf(q), |cache.sets|);
    NextWaysAre(cache.phase, ways, tag, q, resp, data);
    var cache' := Next(cache, q, resp, data);
    var ways' := cache'.sets[i];
    assert WaysHold(ways, i, |cache.sets|, Skip(cache, q, i), a, v);
    Addresses(LineOf(q), |cache.sets|, tag, i);
    if cache'.phase == ReadMem && cache.phase == ReadMem { SelectedSame(ways, ways', tag); }
    hide NextWays, Selected, IndexOf, TagOf, LineAt;
  }

  lemma GoesOn(cache: Cache.State, q: Request, resp: bool, data: Line, q': Request, a: nat, v: Line)
    requires Shapely(cache) && Clean(cache) && !q.write && Fetching(cache, q) && Held(cache, q, q')
    requires CacheHolds(cache, q, a, v)
    requires cache.phase == ReadMem && resp && LineOf(q) == a ==> data == v
    ensures Shapely(Next(cache, q, resp, data)) && CacheHolds(Next(cache, q, resp, data), q', a, v)
  {
    SetGoesOn(cache, q, resp, data, q', a, v);
    var cache' := Next(cache, q, resp, data);
    hide NextWays, Selected, IndexOf, TagOf, LineAt, WaysHold, IsHit;
    forall i: nat | i < |cache'.sets| ensures WaysHold(cache'.sets[i], i, |cache'.sets|, Skip(cache', q', i), a, v) {
      if i != IndexOf(LineOf(q), |cache.sets|) {
        assert cache'.sets[i] == cache.sets[i] && Skip(cache, q, i) == |cache.sets[i]| == Skip(cache', q', i);
      }
    }
  }

  /** A hit on the line delivers v. */
  lemma HitDelivers(cache: Cache.State, q: Request, a: nat, v: Line, noise: Line)
    requires Shapely(cache) && !q.write && CacheHolds(cache, q, a, v) && LineOf(q) == a
    requires Drive(cache, q, noise).memResp
    ensures Drive(cache, q, noise).rdata == v
  {
    var i := IndexOf(LineOf(q), |cache.sets|);
    assert WaysHold(cache.sets[i], i, |cache.sets|, Skip(cache, q, i), a, v);
    Addresses(LineOf(q), |cache.sets|, ReqTag(cache, q), i);
    hide Selected, IndexOf, TagOf, LineAt;
  }

  /** While line a is fetched no other way holds it, so that what the ways hold of it can be anything. */
  lemma MissHoldsAnything(cache: Cache.State, q: Request, a: nat, v: Line)
    requires Shapely(cache) && Fetching(cache, q) && cache.phase == ReadMem && LineOf(q) == a
    ensures CacheHolds(cache, q, a, v)
  {
    var numSets, index := |cache.sets|, IndexOf(a, |cache.sets|);
    HitIsSomewhere(SetOf(cache, q), ReqTag(cache, q));
    hide Selected, IsHit, IndexOf, TagOf, LineAt;
    forall i: nat | i < numSets ensures WaysHold(cache.sets[i], i, numSets, Skip(cache, q, i), a, v) {
      NoWayHolds(cache, q, i);
    }
  }

  lemma NoWayHolds(cache: Cache.State, q: Request, i: nat)
    requires Shapely(cache) && !IsHit(SetOf(cache, q), ReqTag(cache, q)) && i < |cache.sets|
    ensures forall w :: 0 <= w < |cache.sets[i]| && cache.sets[i][w].valid ==>
      LineAt(cache.sets[i][w].tag, i, |cache.sets|) != LineOf(q)
  {
    var ways, tag := SetOf(cache, q), ReqTag(cache, q);
    HitIsSomewhere(ways, tag);
    forall w | 0 <= w < |cache.sets[i]| && cache.sets[i][w].valid
      ensures LineAt(cache.sets[i][w].tag, i, |cache.sets|) != LineOf(q)
    {
      Addresses(LineOf(q), |cache.sets|, cache.sets[i][w].tag, i);
      assert i == IndexOf(LineOf(q), |cache.sets|) ==> !Fits(ways[w], Hit(tag), |ways|);
      hide Selected, IsHit, IndexOf, TagOf, LineAt;
    }
  }

  /** Only a write that hits makes a way dirty. */
  lemma StaysCleanUnlessWritten(cache: Cache.State, q: Request, resp: bool, data: Line)
    requires Shapely(cache) && Clean(cache)
    requires cache.phase == CheckHit && Active(q) ==> !IsHit(SetOf(cache, q), ReqTag(cache, q))
    ensures Shapely(Next(cache, q, resp, data)) && Clean(Next(cache, q, resp, data))
  {
    hide Selected, IndexOf, TagOf, Touched, Stored;
  }
}
