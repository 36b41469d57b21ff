/**
  The address manager as an object. Its tables are updated in place; every assert the
  code makes is proved here, and each operation is tied to its specification.
*/
module AddrMan {
  import opened Wrappers
  import opened AddrManSpec
  import opened AddrManLemmas
  import Ops = AddrManOps
  import Outcomes = AddrManOutcomes

  /** The table when the loop of MakeTried has passed the first k buckets. */
  ghost function DroppedUpTo(e: Env, t: Table, a: Service, id: int, k: nat): (r: Table)
    requires Shaped(t, NEW_BUCKET_COUNT) && k <= NEW_BUCKET_COUNT
    ensures Shaped(r, NEW_BUCKET_COUNT)
    ensures k == 0 ==> r == t
    ensures k == NEW_BUCKET_COUNT ==> r == DropFromNew(e, t, a, id)
  {
    DropFromNew(e, t, a, id)[..k] + t[k..]
  }

  /** The buckets from k on that still hold the id. */
  ghost function HeldFrom(e: Env, t: Table, a: Service, id: int, k: nat): (held: set<nat>)
    requires Shaped(t, NEW_BUCKET_COUNT)
    ensures k == 0 ==> held == NewBuckets(e, t, a, id)
    ensures k == NEW_BUCKET_COUNT ==> held == {}
  {
    set b | b in NewBuckets(e, t, a, id) && b >= k
  }

  lemma DroppedStep(e: Env, t: Table, a: Service, id: int, k: nat)
    requires Shaped(t, NEW_BUCKET_COUNT) && k < NEW_BUCKET_COUNT
    ensures var pos := e.Position(true, k, a);
      var r := DroppedUpTo(e, t, a, id, k);
      var next := DroppedUpTo(e, t, a, id, k + 1);
      r[k] == t[k] && next == if t[k][pos] == id then Put(r, k, pos, -1) else r
  {
    var d := DropFromNew(e, t, a, id);
    assert d[..k + 1] == d[..k] + [d[k]];
    assert t[k..] == [t[k]] + t[k + 1..];
  }

  lemma HeldStep(e: Env, t: Table, a: Service, id: int, k: nat)
    requires Shaped(t, NEW_BUCKET_COUNT) && k < NEW_BUCKET_COUNT
    ensures |HeldFrom(e, t, a, id, k + 1)| ==
      |HeldFrom(e, t, a, id, k)| - (if t[k][e.Position(true, k, a)] == id then 1 else 0)
  {
    assert k in NewBuckets(e, t, a, id) <==> t[k][e.Position(true, k, a)] == id;
    hide NewBuckets;
    OneLess(NewBuckets(e, t, a, id), k);
  }

  lemma OneLess(held: set<nat>, k: nat)
    ensures |set b | b in held && b >= k + 1| == |set b | b in held && b >= k| - if k in held then 1 else 0
  {
    var from, rest := set b | b in held && b >= k, set b | b in held && b >= k + 1;
    assert from == if k in held then rest + {k} else rest;
  }

  /** The n-th bucket the search of Good_ looks at. */
  function Probe(start: nat, n: nat): nat {
    (n + start) % NEW_BUCKET_COUNT
  }

  /** Starting anywhere, the search visits every bucket. */
  lemma SearchCovers(start: nat, b: nat) returns (n: nat)
    requires start < NEW_BUCKET_COUNT && b < NEW_BUCKET_COUNT
    ensures n < NEW_BUCKET_COUNT && Probe(start, n) == b
  {
    n := if b >= start then b - start else b + NEW_BUCKET_COUNT - start;
  }

  /** The states MakeTried goes through. */
  lemma MakeTriedSteps(e: Env, s: State, id: int)
    requires Consistent(e, s, {}, 0) && id in s.mapInfo && !s.mapInfo[id].inTried
    ensures Shaped(s.vvNew, NEW_BUCKET_COUNT) && Shaped(s.vvTried, TRIED_BUCKET_COUNT)
    ensures s.mapInfo[id].refCount == |NewBuckets(e, s.vvNew, s.mapInfo[id].service, id)|
    ensures var t := Detached(e, s, id);
      var a := s.mapInfo[id].service;
      var b := e.TriedBucket(a);
      var i := e.Position(false, b, a);
      var evicted := s.vvTried[b][i];
      if evicted == -1 then Ops.MakeTried(e, s, id) == Placed(e, t, id)
      else
        && evicted in t.mapInfo && evicted != id
        && var v := Evicted(t, b, i);
        && Consistent(e, v, {id, evicted}, 2)
        && var r := Ops.Reinstated(e, v, evicted, {id, evicted}, 2);
        && Shaped(r.vvTried, TRIED_BUCKET_COUNT) && id in r.mapInfo
        && Ops.MakeTried(e, s, id) == Placed(e, r, id)
  {
    var a := s.mapInfo[id].service;
    var b := e.TriedBucket(a);
    var i := e.Position(false, b, a);
    var evicted := s.vvTried[b][i];
    assert InfoOk(e, s, {}, id);
    DetachedOk(e, s, id);
    var t := Detached(e, s, id);
    if evicted != -1 {
      EvictedOk(e, t, {id}, 1, b, i);
      assert {id} + {evicted} == {id, evicted};
      Ops.ReinstatedRest(e, Evicted(t, b, i), evicted, {id, evicted}, 2, id);
    }
  }

  /** What holds after ClearNew while an evicted entry is put back. */
  lemma ReinstateSteps(e: Env, s: State, evicted: int, limbo: set<int>, uncounted: int, other: int)
    requires Consistent(e, s, limbo, uncounted) && evicted in limbo && other in limbo
    ensures var b, i := Ops.HomeBucket(e, s.mapInfo[evicted]), Ops.HomePosition(e, s.mapInfo[evicted]);
      && MayClearNew(s, b, i)
      && var c := ClearNew(s, b, i);
      && Shaped(c.vvNew, NEW_BUCKET_COUNT) && c.vvNew[b][i] == -1 && c.vvTried == s.vvTried
      && evicted in c.mapInfo && c.mapInfo[evicted].refCount == 0
      && other in c.mapInfo && c.mapInfo[other].service == s.mapInfo[other].service
  {
    var b, i := Ops.HomeBucket(e, s.mapInfo[evicted]), Ops.HomePosition(e, s.mapInfo[evicted]);
    ClearNewOk(e, s, limbo, uncounted, b, i);
    Ops.LimboSurvives(e, s, limbo, uncounted, b, i, evicted);
    Ops.LimboSurvives(e, s, limbo, uncounted, b, i, other);
  }

  /** What holds while Add_ looks at a slot of the new table. */
  lemma BucketSteps(e: Env, s: State, id: int, b: nat, i: nat, limbo: set<int>)
    requires Consistent(e, s, limbo, 0) && limbo <= {id} && id in s.mapInfo && !s.mapInfo[id].inTried
    requires b < NEW_BUCKET_COUNT && i < BUCKET_SIZE
    ensures Shaped(s.vvNew, NEW_BUCKET_COUNT)
    ensures s.vvNew[b][i] != -1 ==> s.vvNew[b][i] in s.mapInfo
    ensures s.mapInfo[id].refCount == 0 ==> MayDelete(s, id)
    ensures MayClearNew(s, b, i)
    ensures s.vvNew[b][i] != id ==> var c := ClearNew(s, b, i);
      Shaped(c.vvNew, NEW_BUCKET_COUNT) && id in c.mapInfo
  {
    Ops.ZeroIsLimbo(e, s, limbo, id);
    ClearNewOk(e, s, limbo, 0, b, i);
    if s.mapInfo[id].refCount == 0 { DeleteOk(e, s, limbo, 0, id); }
  }

  /** A set with elements has one to pick. */
  lemma NonEmpty(ids: set<int>)
    requires |ids| > 0
    ensures exists id :: id in ids
  {
    assert (forall id :: id !in ids) ==> ids == {};
  }

  lemma ResolveSteps(e: Env, s: State, id: int, clock: seq<int>)
    requires Intact(e, s) && Ops.Readings(clock)
    ensures Shaped(s.vvTried, TRIED_BUCKET_COUNT)
    ensures id in s.mapInfo && TriedSlot(e, s, s.mapInfo[id].service) != -1 ==>
      TriedSlot(e, s, s.mapInfo[id].service) in s.mapInfo
    ensures Intact(e, Ops.ResolveOne(e, s, id, clock))
  {
    Ops.ResolveOneKeepsInv(e, s, id, clock);
  }

  lemma ResolvedCollisions(e: Env, s: State, id: int, clock: seq<int>)
    requires Intact(e, s) && Ops.Readings(clock)
    ensures Ops.ResolveOne(e, s, id, clock).collisions in {s.collisions, s.collisions - {id}}
  {
    if id in s.mapInfo {
      var a := s.mapInfo[id].service;
      GoodSteps(e, s, a, clock[4]);
      var found := Ops.FindExact(s, a);
      if found.Some? && !s.mapInfo[found.value].inTried {
        var t := WithInfo(s.(lastGood := clock[4]), found.value,
                          Ops.Marked(s.mapInfo[found.value], clock[4]));
        Ops.MakeTriedPromotes(e, t, found.value);
      }
    }
  }

  lemma CollisionsBelow(e: Env, s: State)
    requires Intact(e, s)
    ensures s.idCount >= 0 && forall id | id in s.collisions :: 0 <= id < s.idCount
  {
  }

  lemma OneMoreTurn(e: Env, s: State, ids: seq<int>, clocks: seq<seq<int>>, id: int, clock: seq<int>)
    requires Intact(e, s) && |ids| == |clocks|
    requires (forall j | 0 <= j < |clocks| :: Ops.Readings(clocks[j])) && Ops.Readings(clock)
    ensures Ops.ResolveAll(e, s, ids + [id], clocks + [clock]) ==
      Ops.ResolveOne(e, Ops.ResolveAll(e, s, ids, clocks), id, clock)
  {
    hide Intact, Ops.ResolveOne;
    assert (ids + [id])[..|ids|] == ids && (clocks + [clock])[..|ids|] == clocks;
  }

  lemma NoSwaps(e: Env, s: State)
    requires Intact(e, s)
    ensures Ops.SwapAll(e, s, []) == s
  {
  }

  lemma OneMoreSwap(e: Env, s: State, swaps: seq<(nat, nat)>, p: nat, q: nat)
    requires Intact(e, s) && forall j | 0 <= j < |swaps| :: swaps[j].0 < |s.vRandom| && swaps[j].1 < |s.vRandom|
    requires p < |s.vRandom| && q < |s.vRandom|
    ensures var t := Ops.SwapAll(e, s, swaps);
      MaySwap(t, p, q) && Ops.SwapAll(e, s, swaps + [(p, q)]) == SwapRandom(t, p, q)
  {
    var t := Ops.SwapAll(e, s, swaps);
    Ops.SwapKeepsInv(e, t, p, q);
    assert (swaps + [(p, q)])[..|swaps|] == swaps;
  }

  lemma AddSteps(e: Env, s: State, addr: Address, source: NetAddr, timePenalty: int, now: int)
    requires Intact(e, s)
    ensures forall lucky: bool :: Intact(e, Ops.Add(e, s, addr, source, timePenalty, now, lucky).0)
    ensures Dated(s) ==> forall lucky: bool :: Dated(Ops.Add(e, s, addr, source, timePenalty, now, lucky).0)
    ensures var penalty := if addr.service.net == source then 0 else timePenalty;
      Find(s, addr.service.net).None? ==> Consistent(e, Ops.Created(s, addr, source, penalty), {s.idCount}, 0)
  {
    forall lucky: bool
      ensures Intact(e, Ops.Add(e, s, addr, source, timePenalty, now, lucky).0)
      ensures Dated(s) ==> Dated(Ops.Add(e, s, addr, source, timePenalty, now, lucky).0)
    {
      Ops.AddKeepsInv(e, s, addr, source, timePenalty, now, lucky);
    }
    if Find(s, addr.service.net).None? {
      Ops.CreatedOk(e, s, addr, source, if addr.service.net == source then 0 else timePenalty);
    }
  }

  /** The entry after Good_ has marked it, when there is one. */
  lemma GoodSteps(e: Env, s: State, addr: Service, time: int)
    requires Intact(e, s)
    ensures Ops.FindExact(s, addr).Some? ==>
      var id := Ops.FindExact(s, addr).value;
      var t := WithInfo(s.(lastGood := time), id, Ops.Marked(s.mapInfo[id], time));
      && Intact(e, t)
      && (!s.mapInfo[id].inTried ==> NewBuckets(e, t.vvNew, s.mapInfo[id].service, id) != {})
  {
    Ops.LastGoodSet(e, s, time);
    var found := Ops.FindExact(s, addr);
    if found.Some? {
      var id := found.value;
      var s0 := s.(lastGood := time);
      assert InfoOk(e, s0, {}, id);
      Ops.InfoUpdated(e, s0, id, Ops.Marked(s.mapInfo[id], time), {}, 0);
    }
  }

  /** How many addresses GetAddr_ looks for. */
  function Wanted(size: nat, maxAddresses: nat, maxPct: nat): nat {
    var share := if maxPct != 0 then maxPct * size / 100 else size;
    if maxAddresses != 0 && maxAddresses < share then maxAddresses else share
  }

  /** It is the largest number within the limit and within the share, where these are given. */
  lemma WantedIsLargest(size: nat, maxAddresses: nat, maxPct: nat, n: nat)
    ensures n <= Wanted(size, maxAddresses, maxPct) <==>
      && (maxAddresses != 0 ==> n <= maxAddresses)
      && if maxPct != 0 then 100 * n <= maxPct * size else n <= size
  {
  }

  function AsAddress(info: Info): Address {
    Address(info.service, info.time, info.services)
  }

  predicate Offered(e: Env, info: Info, network: Option<nat>, now: int) {
    (network.None? || e.netClass(info.service.net) == network.value) && !info.IsTerrible(now)
  }

  /** The ids are, without repetition, the offered ones among those looked at. */
  ghost predicate Chosen(e: Env, s: State, looked: seq<int>, network: Option<nat>, now: int, ids: seq<int>) {
    && (forall j, k | 0 <= j < k < |ids| :: ids[j] != ids[k])
    && (forall k | 0 <= k < |ids| ::
        ids[k] in looked && ids[k] in s.mapInfo && Offered(e, s.mapInfo[ids[k]], network, now))
    && (forall id | id in looked && id in s.mapInfo && Offered(e, s.mapInfo[id], network, now) :: id in ids)
  }

  lemma ShrunkTwice(s: State, t: State, u: State)
    requires Shrunk(s, t) && Shrunk(t, u)
    ensures Shrunk(s, u)
  {
  }

  lemma ChosenStep(e: Env, s: State, t: State, n: nat, network: Option<nat>, now: int, ids: seq<int>)
    requires IndexesOk(t) && n < |t.vRandom| && t.mapInfo.Keys == s.mapInfo.Keys
    requires Chosen(e, s, t.vRandom[..n], network, now, ids)
    ensures Chosen(e, s, t.vRandom[..n + 1], network, now,
                   if Offered(e, s.mapInfo[t.vRandom[n]], network, now) then ids + [t.vRandom[n]] else ids)
  {
    var id := t.vRandom[n];
    assert t.vRandom[..n + 1] == t.vRandom[..n] + [id];
    assert forall p | 0 <= p < n :: t.vRandom[p] != id;
    ChosenOne(e, s, t.vRandom[..n], id, network, now, ids);
  }

  lemma ChosenOne(e: Env, s: State, looked: seq<int>, id: int, network: Option<nat>, now: int, ids: seq<int>)
    requires Chosen(e, s, looked, network, now, ids) && id !in looked && id in s.mapInfo
    ensures Chosen(e, s, looked + [id], network, now,
                   if Offered(e, s.mapInfo[id], network, now) then ids + [id] else ids)
  {
    hide Offered;
    assert id !in ids;
  }

  lemma DrawSteps(e: Env, s: State, t: State, n: nat, pick: nat, network: Option<nat>, now: int, ids: seq<int>)
    requires Intact(e, t) && n <= pick < |t.vRandom| && Shrunk(s, t) && t.mapInfo.Keys == s.mapInfo.Keys
    requires Chosen(e, s, t.vRandom[..n], network, now, ids)
    ensures MaySwap(t, n, pick)
    ensures var u := SwapRandom(t, n, pick);
      && Intact(e, u) && Shrunk(s, u) && u.mapInfo.Keys == s.mapInfo.Keys
      && |u.vRandom| == |t.vRandom| && multiset(u.vRandom) == multiset(t.vRandom)
      && u.vRandom[n] in s.mapInfo && SameInfo(s.mapInfo[u.vRandom[n]], u.mapInfo[u.vRandom[n]])
      && Chosen(e, s, u.vRandom[..n + 1], network, now,
                if Offered(e, s.mapInfo[u.vRandom[n]], network, now) then ids + [u.vRandom[n]] else ids)
  {
    Ops.SwapKeepsInv(e, t, n, pick);
    SwapRandomOk(t, n, pick);
    var u := SwapRandom(t, n, pick);
    ShrunkTwice(s, t, u);
    assert u.vRandom[..n] == t.vRandom[..n];
    SwapMultiset(t.vRandom, n, pick);
    ChosenStep(e, s, u, n, network, now, ids);
  }

  lemma SwapMultiset(v: seq<int>, p: nat, q: nat)
    requires p < |v| && q < |v|
    ensures multiset(v[p := v[q]][q := v[p]]) == multiset(v)
  {
  }

  lemma NothingChosen(e: Env, s: State, looked: seq<int>, network: Option<nat>, now: int)
    requires looked == []
    ensures Chosen(e, s, looked, network, now, []) && Shrunk(s, s)
  {
  }

  lemma ChosenDistinct(e: Env, s: State, looked: seq<int>, network: Option<nat>, now: int, ids: seq<int>)
    requires Chosen(e, s, looked, network, now, ids)
    ensures forall j, k | 0 <= j < k < |ids| :: ids[j] != ids[k]
    ensures forall k | 0 <= k < |ids| :: ids[k] in s.mapInfo && Offered(e, s.mapInfo[ids[k]], network, now)
  {
  }

  lemma AllChosen(e: Env, s: State, t: State, network: Option<nat>, now: int, ids: seq<int>)
    requires Intact(e, t) && t.mapInfo.Keys == s.mapInfo.Keys
    requires Chosen(e, s, t.vRandom[..|t.vRandom|], network, now, ids)
    ensures forall id | id in s.mapInfo && Offered(e, s.mapInfo[id], network, now) :: id in ids
  {
    assert t.vRandom[..|t.vRandom|] == t.vRandom;
    forall id | id in s.mapInfo && Offered(e, s.mapInfo[id], network, now) ensures id in ids {
      assert t.vRandom[t.mapInfo[id].randomPos] == id;
    }
  }

  function TwoTo(n: nat): nat {
    if n == 0 then 1 else 2 * TwoTo(n - 1)
  }

  class CAddrMan {
    const e: Env
    var nIdCount: int
    var mapInfo: map<int, Info>
    var mapAddr: map<NetAddr, int>
    var vRandom: seq<int>
    var nTried: int
    var vvTried: Table
    var nNew: int
    var vvNew: Table
    var nLastGood: int
    var triedCollisions: set<int>

    ghost function S(): State
      reads this
    {
      State(nIdCount, mapInfo, mapAddr, vRandom, nTried, vvTried, nNew, vvNew, nLastGood, triedCollisions)
    }

    constructor (env: Env)
      ensures e == env && S() == Initial() && Inv(e, S())
    {
      e := env;
      nIdCount, mapInfo, mapAddr, vRandom := 0, map[], map[], [];
      nTried, vvTried := 0, EmptyTable(TRIED_BUCKET_COUNT);
      nNew, vvNew := 0, EmptyTable(NEW_BUCKET_COUNT);
      nLastGood, triedCollisions := 1, {};
      new;
      Ops.InitialOk(e);
    }

    method Create(addr: Address, source: NetAddr) returns (id: int)
      modifies this
      ensures id == old(nIdCount) && S() == AddrManSpec.Create(old(S()), addr, source)
    {
      id := nIdCount;
      nIdCount := nIdCount + 1;
      mapInfo := mapInfo[id := Info(addr.service, addr.time, addr.services, source, 0, 0, 0, 0, 0, false, -1)];
      mapAddr := mapAddr[addr.service.net := id];
      mapInfo := mapInfo[id := mapInfo[id].(randomPos := |vRandom|)];
      vRandom := vRandom + [id];
    }

    method SwapRandom(p: int, q: int)
      requires MaySwap(S(), p, q)
      modifies this
      ensures S() == AddrManSpec.SwapRandom(old(S()), p, q)
    {
      if p == q { return; }
      var id1, id2 := vRandom[p], vRandom[q];
      mapInfo := mapInfo[id1 := mapInfo[id1].(randomPos := q)];
      mapInfo := mapInfo[id2 := mapInfo[id2].(randomPos := p)];
      vRandom := vRandom[p := id2];
      vRandom := vRandom[q := id1];
    }

    method Delete(id: int)
      requires MayDelete(S(), id)
      modifies this
      ensures S() == AddrManSpec.Delete(old(S()), id)
    {
      assert id in mapInfo && !mapInfo[id].inTried && mapInfo[id].refCount == 0;
      var net := mapInfo[id].service.net;
      SwapRandom(mapInfo[id].randomPos, |vRandom| - 1);
      vRandom := vRandom[..|vRandom| - 1];
      mapAddr := mapAddr - {net};
      mapInfo := mapInfo - {id};
      nNew := nNew - 1;
    }

    method ClearNew(b: nat, i: nat)
      requires MayClearNew(S(), b, i)
      modifies this
      ensures S() == AddrManSpec.ClearNew(old(S()), b, i)
    {
      if vvNew[b][i] != -1 {
        var id := vvNew[b][i];
        assert mapInfo[id].refCount > 0;
        mapInfo := mapInfo[id := mapInfo[id].(refCount := mapInfo[id].refCount - 1)];
        vvNew := Put(vvNew, b, i, -1);
        assert S() == Unreference(old(S()), b, i);
        if mapInfo[id].refCount == 0 {
          Delete(id);
        }
      }
    }

    /** The loop of MakeTried: take an entry out of every new bucket, counting references down. */
    method DropFromNewBuckets(id: int)
      requires Shaped(vvNew, NEW_BUCKET_COUNT) && id in mapInfo
      requires mapInfo[id].refCount == |NewBuckets(e, vvNew, mapInfo[id].service, id)|
      modifies this
      ensures S() == Detached(e, old(S()), id).(nNew := old(nNew))
    {
      var a, table, refs := mapInfo[id].service, vvNew, mapInfo[id].refCount;
      var bucket := 0;
      while bucket < NEW_BUCKET_COUNT
        invariant bucket <= NEW_BUCKET_COUNT
        invariant table == DroppedUpTo(e, vvNew, a, id, bucket)
        invariant refs == |HeldFrom(e, vvNew, a, id, bucket)|
        modifies {}
      {
        var pos := e.Position(true, bucket, a);
        DroppedStep(e, vvNew, a, id, bucket);
        HeldStep(e, vvNew, a, id, bucket);
        if table[bucket][pos] == id {
          table := Put(table, bucket, pos, -1);
          refs := refs - 1;
        }
        bucket := bucket + 1;
      }
      vvNew := table;
      mapInfo := mapInfo[id := mapInfo[id].(refCount := refs)];
    }

    method MakeTried(id: int)
      requires Consistent(e, S(), {}, 0) && id in mapInfo && !mapInfo[id].inTried
      modifies this
      ensures S() == Ops.MakeTried(e, old(S()), id)
    {
      MakeTriedSteps(e, S(), id);
      hide Consistent, Ops.MakeTried, Ops.Reinstated;
      var a := mapInfo[id].service;
      var b := e.TriedBucket(a);
      var i := e.Position(false, b, a);
      DropFromNewBuckets(id);
      nNew := nNew - 1;
      assert mapInfo[id].refCount == 0;
      if vvTried[b][i] != -1 {
        var evicted := vvTried[b][i];
        assert evicted in mapInfo;
        mapInfo := mapInfo[evicted := mapInfo[evicted].(inTried := false)];
        vvTried := Put(vvTried, b, i, -1);
        nTried := nTried - 1;
        Reinstate(evicted, {id, evicted}, 2, id);
      }
      assert vvTried[b][i] == -1;
      mapInfo := mapInfo[id := mapInfo[id].(inTried := true)];
      vvTried := Put(vvTried, b, i, id);
      nTried := nTried + 1;
    }

    /** Enter an evicted entry into the new set again, in the place of whatever is there. */
    method Reinstate(evicted: int, ghost limbo: set<int>, ghost uncounted: int, ghost other: int)
      requires Consistent(e, S(), limbo, uncounted) && evicted in limbo && other in limbo
      modifies this
      ensures S() == Ops.Reinstated(e, old(S()), evicted, limbo, uncounted)
      ensures vvTried == old(vvTried) && other in mapInfo && mapInfo[other].service == old(mapInfo[other].service)
    {
      var b := Ops.HomeBucket(e, mapInfo[evicted]);
      var i := Ops.HomePosition(e, mapInfo[evicted]);
      hide MayClearNew;
      ReinstateSteps(e, S(), evicted, limbo, uncounted, other);
      ClearNew(b, i);
      assert vvNew[b][i] == -1;
      mapInfo := mapInfo[evicted := mapInfo[evicted].(refCount := 1)];
      vvNew := Put(vvNew, b, i, evicted);
      nNew := nNew + 1;
    }

    /** Look for a new bucket that holds the id, starting at a random one. */
    method FindNewBucket(id: int, a: Service) returns (bucket: int)
      requires Shaped(vvNew, NEW_BUCKET_COUNT)
      ensures bucket != -1 ==> 0 <= bucket < NEW_BUCKET_COUNT && bucket in NewBuckets(e, vvNew, a, id)
      ensures bucket == -1 ==> NewBuckets(e, vvNew, a, id) == {}
    {
      var start: nat :| start < NEW_BUCKET_COUNT;
      var n := 0;
      while n < NEW_BUCKET_COUNT
        invariant n <= NEW_BUCKET_COUNT
        invariant forall m: nat | m < n :: vvNew[Probe(start, m)][e.Position(true, Probe(start, m), a)] != id
      {
        var b := Probe(start, n);
        if vvNew[b][e.Position(true, b, a)] == id { return b; }
        n := n + 1;
      }
      forall b | b in NewBuckets(e, vvNew, a, id) ensures false {
        var m := SearchCovers(start, b);
      }
      return -1;
    }

    /** The rest of Good_ for an entry of the new table, marked as good. */
    method Promote(id: int, testBeforeEvict: bool)
      requires Intact(e, S()) && id in mapInfo && !mapInfo[id].inTried
      modifies this
      ensures S() == if testBeforeEvict && TriedSlot(e, old(S()), old(mapInfo[id].service)) != -1 then
          if |old(triedCollisions)| < SET_TRIED_COLLISION_SIZE
          then old(S()).(collisions := old(triedCollisions) + {id}) else old(S())
        else Ops.MakeTried(e, old(S()), id)
    {
      Ops.GoodTail(e, S(), id, testBeforeEvict);
      var a := mapInfo[id].service;
      var bucket := FindNewBucket(id, a);
      assert bucket != -1;  // the bail-out for an entry in no bucket is never taken
      var b := e.TriedBucket(a);
      var i := e.Position(false, b, a);
      if testBeforeEvict && vvTried[b][i] != -1 {
        if |triedCollisions| < SET_TRIED_COLLISION_SIZE {
          triedCollisions := triedCollisions + {id};
        }
      } else {
        MakeTried(id);
      }
    }

    method Good(addr: Service, testBeforeEvict: bool, time: int)
      requires Intact(e, S())
      modifies this
      ensures Intact(e, S()) && S() == Ops.Good(e, old(S()), addr, testBeforeEvict, time)
      ensures old(Inv(e, S())) ==> (Inv(e, S()) <==> Ops.GoodTime(e, old(S()), addr, testBeforeEvict, time))
    {
      Ops.GoodKeepsInv(e, S(), addr, testBeforeEvict, time);
      GoodSteps(e, S(), addr, time);
      hide Consistent, CollisionsOk, Ops.MakeTried;
      nLastGood := time;
      if addr.net !in mapAddr || mapAddr[addr.net] !in mapInfo { return; }
      var id := mapAddr[addr.net];
      if mapInfo[id].service != addr { return; }
      mapInfo := mapInfo[id := mapInfo[id].(lastSuccess := time, lastTry := time, attempts := 0)];
      if mapInfo[id].inTried { return; }
      Promote(id, testBeforeEvict);
    }

    /** The second half of Add_. */
    method EnterBucket(id: int, source: NetAddr, now: int, ghost limbo: set<int>)
      requires Consistent(e, S(), limbo, 0) && limbo <= {id} && id in mapInfo && !mapInfo[id].inTried
      modifies this
      ensures S() == Ops.Bucketed(e, old(S()), id, source, now, limbo)
    {
      hide MayClearNew, MayDelete, Consistent;
      var a := mapInfo[id].service;
      var b := e.NewBucket(a, source);
      var i := e.Position(true, b, a);
      BucketSteps(e, S(), id, b, i, limbo);
      if vvNew[b][i] != id {
        var insert := vvNew[b][i] == -1;
        if !insert {
          var existing := mapInfo[vvNew[b][i]];
          if existing.IsTerrible(now) || (existing.refCount > 1 && mapInfo[id].refCount == 0) {
            insert := true;
          }
        }
        if insert {
          ClearNew(b, i);
          mapInfo := mapInfo[id := mapInfo[id].(refCount := mapInfo[id].refCount + 1)];
          vvNew := Put(vvNew, b, i, id);
        } else if mapInfo[id].refCount == 0 {
          Delete(id);
        }
      }
    }

    method Add(addr: Address, source: NetAddr, timePenalty: int, now: int) returns (isNew: bool)
      requires Intact(e, S())
      modifies this
      ensures Intact(e, S()) && (old(Inv(e, S())) ==> Inv(e, S()))
      ensures exists lucky: bool :: (S(), isNew) == Ops.Add(e, old(S()), addr, source, timePenalty, now, lucky)
    {
      ghost var s := S();
      AddSteps(e, s, addr, source, timePenalty, now);
      hide Consistent, CollisionsOk;
      if !e.isRoutable(addr.service.net) {
        assert (S(), false) == Ops.Add(e, s, addr, source, timePenalty, now, false);
        return false;
      }
      var penalty := if addr.service.net == source then 0 else timePenalty;
      if addr.service.net in mapAddr && mapAddr[addr.service.net] in mapInfo {
        ghost var lucky := AddKnown(mapAddr[addr.service.net], addr, source, penalty, now);
        assert (S(), false) == Ops.Add(e, s, addr, source, timePenalty, now, lucky);
        return false;
      }
      AddUnknown(addr, source, penalty, now);
      assert (S(), true) == Ops.Add(e, s, addr, source, timePenalty, now, false);
      return true;
    }

    /** Add_ for an address that has no entry. */
    method AddUnknown(addr: Address, source: NetAddr, penalty: int, now: int)
      requires Consistent(e, Ops.Created(S(), addr, source, penalty), {nIdCount}, 0)
      modifies this
      ensures S() ==
        Ops.Bucketed(e, Ops.Created(old(S()), addr, source, penalty), old(nIdCount), source, now, {old(nIdCount)})
    {
      hide Consistent;
      var id := Create(addr, source);
      mapInfo := mapInfo[id := mapInfo[id].(time := Ops.Max(0, mapInfo[id].time - penalty))];
      nNew := nNew + 1;
      assert S() == Ops.Created(old(S()), addr, source, penalty);
      EnterBucket(id, source, now, {id});
    }

    /** Add_ for an address that has an entry. */
    method AddKnown(id: int, addr: Address, source: NetAddr, penalty: int, now: int) returns (ghost lucky: bool)
      requires Intact(e, S()) && id in mapInfo
      modifies this
      ensures var info := Ops.Refreshed(old(mapInfo[id]), addr, penalty, now);
        var t := WithInfo(old(S()), id, info);
        && Intact(e, t)
        && S() == if Ops.WantsMore(info, addr, lucky) then Ops.Bucketed(e, t, id, source, now, {}) else t
    {
      Ops.RefreshedOk(e, S(), id, addr, penalty, now);
      lucky := false;
      var info := Refresh(mapInfo[id], addr, penalty, now);
      mapInfo := mapInfo[id := info];
      assert S() == WithInfo(old(S()), id, info);
      hide Consistent, CollisionsOk, Ops.Refreshed;
      if addr.time == 0 || (info.time != 0 && addr.time <= info.time) { return; }
      if info.inTried { return; }
      if info.refCount == NEW_BUCKETS_PER_ADDRESS { return; }
      var factor := Pow2(info.refCount);
      var draw: int :| 0 <= draw < factor;
      if factor > 1 && draw != 0 { return; }
      lucky := true;
      EnterBucket(id, source, now, {});
    }

    /** Move the time forward, unless it did recently, and join the services. */
    method Refresh(known: Info, addr: Address, penalty: int, now: int) returns (info: Info)
      ensures info == Ops.Refreshed(known, addr, penalty, now)
    {
      info := known;
      var online := now - addr.time < 24 * 60 * 60;
      var interval := if online then 60 * 60 else 24 * 60 * 60;
      if addr.time != 0 && (info.time == 0 || info.time < addr.time - interval - penalty) {
        info := info.(time := Ops.Max(0, addr.time - penalty));
      }
      info := info.(services := info.services + addr.services);
    }

    /** How much harder each further reference is to get: 2^n. */
    method Pow2(n: int) returns (factor: int)
      ensures factor == (if n <= 0 then 1 else TwoTo(n)) && (factor > 1 <==> n > 0)
    {
      factor := 1;
      var k := 0;
      while k < n
        invariant 0 <= k && (n > 0 ==> k <= n) && (n <= 0 ==> k == 0)
        invariant factor == TwoTo(k) && (factor > 1 <==> k > 0)
      {
        factor := factor * 2;
        k := k + 1;
      }
    }

    /** The entry of exactly this address and port. */
    method FindExact(addr: Service) returns (found: Option<int>)
      ensures found == Ops.FindExact(S(), addr)
    {
      if addr.net !in mapAddr || mapAddr[addr.net] !in mapInfo { return None; }
      if mapInfo[mapAddr[addr.net]].service != addr { return None; }
      return Some(mapAddr[addr.net]);
    }

    method Attempt(addr: Service, countFailure: bool, time: int)
      requires Intact(e, S())
      modifies this
      ensures Intact(e, S()) && S() == Ops.Touched(old(S()), addr, Ops.Attempt(countFailure, time))
      ensures old(Inv(e, S())) ==> (Inv(e, S()) <==> Ops.TouchTime(old(S()), addr, Ops.Attempt(countFailure, time)))
    {
      hide Intact, Dated, Ops.TouchTime;
      Ops.TouchedKeepsInv(e, S(), addr, Ops.Attempt(countFailure, time));
      var found := FindExact(addr);
      if found.None? { return; }
      var info := mapInfo[found.value].(lastTry := time);
      if countFailure && info.lastCountAttempt < nLastGood {
        info := info.(lastCountAttempt := time, attempts := info.attempts + 1);
      }
      mapInfo := mapInfo[found.value := info];
    }

    method Connected(addr: Service, time: int)
      requires Intact(e, S())
      modifies this
      ensures Intact(e, S()) && S() == Ops.Touched(old(S()), addr, Ops.Connect(time))
      ensures old(Inv(e, S())) ==> Inv(e, S())
    {
      hide Intact, Dated;
      Ops.TouchedKeepsInv(e, S(), addr, Ops.Connect(time));
      var found := FindExact(addr);
      if found.None? { return; }
      var info := mapInfo[found.value];
      if time - info.time > 20 * 60 {
        info := info.(time := time);
      }
      mapInfo := mapInfo[found.value := info];
    }

    method SetServices(addr: Service, services: set<nat>)
      requires Intact(e, S())
      modifies this
      ensures Intact(e, S()) && S() == Ops.Touched(old(S()), addr, Ops.SetServices(services))
      ensures old(Inv(e, S())) ==> Inv(e, S())
    {
      hide Intact, Dated;
      Ops.TouchedKeepsInv(e, S(), addr, Ops.SetServices(services));
      var found := FindExact(addr);
      if found.None? { return; }
      mapInfo := mapInfo[found.value := mapInfo[found.value].(services := services)];
    }

    /** The adjusted network time, which is positive. */
    method GetAdjustedTime() returns (now: int)
      ensures now > 0
    {
      now :| now > 0;
    }

    /** Decide one pending collision, given the readings of the time that the tests make. */
    method ResolveCollision(id: int, clock: seq<int>)
      requires Intact(e, S()) && Ops.Readings(clock)
      modifies this
      ensures Intact(e, S()) && S() == Ops.ResolveOne(e, old(S()), id, clock)
    {
      hide Intact, Ops.Good;
      ResolveSteps(e, S(), id, clock);
      if id !in mapInfo || !e.isValid(mapInfo[id].service.net) {
        triedCollisions := triedCollisions - {id};
        return;
      }
      var a := mapInfo[id].service;
      var slot := vvTried[e.TriedBucket(a)][e.Position(false, e.TriedBucket(a), a)];
      var replace := true;
      if slot != -1 {
        var old_info := mapInfo[slot];
        if clock[0] - old_info.lastSuccess < REPLACEMENT_HOURS * 60 * 60 {
          triedCollisions := triedCollisions - {id};
          return;
        } else if clock[1] - old_info.lastTry < REPLACEMENT_HOURS * 60 * 60 {
          replace := clock[2] - old_info.lastTry > 60;
        } else {
          replace := clock[3] - mapInfo[id].lastSuccess > TEST_WINDOW;
        }
      }
      if replace {
        Good(a, false, clock[4]);
        triedCollisions := triedCollisions - {id};
      }
    }

    /** Goes through the pending collisions once each, in ascending order of their ids. */
    method ResolveCollisions() returns (ghost ids: seq<int>, ghost clocks: seq<seq<int>>)
      requires Intact(e, S())
      modifies this
      ensures |ids| == |clocks| && forall j | 0 <= j < |clocks| :: Ops.Readings(clocks[j])
      ensures forall j, k | 0 <= j < k < |ids| :: ids[j] < ids[k]
      ensures forall id :: id in ids <==> id in old(triedCollisions)
      ensures Intact(e, S()) && S() == Ops.ResolveAll(e, old(S()), ids, clocks)
      ensures old(Inv(e, S())) ==> Inv(e, S())
      ensures forall x | x in old(mapInfo) && Outcomes.JustReached(old(mapInfo)[x], clocks) ::
        x in mapInfo && mapInfo[x].inTried
    {
      hide Intact, Ops.ResolveOne;
      ids, clocks := [], [];
      var end := nIdCount;
      CollisionsBelow(e, S());
      for id := 0 to end
        invariant Intact(e, S()) && |ids| == |clocks| && forall j | 0 <= j < |clocks| :: Ops.Readings(clocks[j])
        invariant forall j, k | 0 <= j < k < |ids| :: ids[j] < ids[k]
        invariant forall k :: k in ids <==> k in old(triedCollisions) && k < id
        invariant forall k | k >= id :: k in triedCollisions <==> k in old(triedCollisions)
        invariant S() == Ops.ResolveAll(e, old(S()), ids, clocks)
      {
        if id in triedCollisions {
          var t0 := GetAdjustedTime();
          var t1 := GetAdjustedTime();
          var t2 := GetAdjustedTime();
          var t3 := GetAdjustedTime();
          var t4 := GetAdjustedTime();
          ResolvedCollisions(e, S(), id, [t0, t1, t2, t3, t4]);
          ResolveCollision(id, [t0, t1, t2, t3, t4]);
          OneMoreTurn(e, old(S()), ids, clocks, id, [t0, t1, t2, t3, t4]);
          assert forall j | 0 <= j < |ids| :: ids[j] in ids;
          ids, clocks := ids + [id], clocks + [[t0, t1, t2, t3, t4]];
        }
      }
      forall x | x in old(mapInfo) && Outcomes.JustReached(old(mapInfo)[x], clocks)
        ensures x in mapInfo && mapInfo[x].inTried
      {
        Outcomes.RecentlyReachedStays(e, old(S()), ids, clocks, x);
      }
    }

    /**
      A random tried entry that another address is waiting to evict; never a lookup of -1.
      A pending collision whose entry is gone is forgotten instead, and nothing else changes.
    */
    method SelectTriedCollision() returns (r: Option<Info>)
      requires Intact(e, S())
      modifies this
      ensures Intact(e, S()) && (old(Inv(e, S())) ==> Inv(e, S()))
      ensures || S() == old(S())
              || (r.None? && exists id ::
                    id in old(triedCollisions) && id !in mapInfo && S() == Ops.Erased(old(S()), id))
      ensures r.Some? ==> exists id ::
        && id in triedCollisions && id in mapInfo && TriedSlot(e, S(), mapInfo[id].service) in mapInfo
        && r.value == mapInfo[TriedSlot(e, S(), mapInfo[id].service)] && r.value.inTried
      ensures r.None? <==> |old(triedCollisions)| == 0 || triedCollisions != old(triedCollisions)
    {
      if |triedCollisions| == 0 { return None; }
      NonEmpty(triedCollisions);
      var id :| id in triedCollisions;
      if id !in mapInfo {
        Ops.ErasedKeepsInv(e, S(), id);
        triedCollisions := triedCollisions - {id};
        return None;
      }
      Ops.CollisionHasOpponent(e, S(), id);
      var a := mapInfo[id].service;
      var old_id := vvTried[e.TriedBucket(a)][e.Position(false, e.TriedBucket(a), a)];
      assert old_id == TriedSlot(e, S(), a);
      return Some(mapInfo[old_id]);
    }

    /**
      GetAddr_: a random choice, as large as asked for, among the entries of the network that
      are not terrible. Entry ids[k] is the one that answer k came from. All that changes is
      the order of vRandom, by the swaps it makes.
    */
    method GetAddr(maxAddresses: nat, maxPct: nat, network: Option<nat>, now: int)
      returns (r: seq<Address>, ghost ids: seq<int>, ghost swaps: seq<(nat, nat)>)
      requires Intact(e, S())
      modifies this
      ensures |swaps| <= |old(vRandom)| && forall j | 0 <= j < |swaps| :: swaps[j].0 == j <= swaps[j].1 < |old(vRandom)|
      ensures Intact(e, S()) && S() == Ops.SwapAll(e, old(S()), swaps)
      ensures mapInfo.Keys == old(mapInfo).Keys && multiset(vRandom) == old(multiset(vRandom))
      ensures |ids| == |r| <= Wanted(|vRandom|, maxAddresses, maxPct)
      ensures forall j, k | 0 <= j < k < |ids| :: ids[j] != ids[k]
      ensures forall k | 0 <= k < |ids| ::
        && ids[k] in old(mapInfo) && Offered(e, old(mapInfo)[ids[k]], network, now)
        && r[k] == AsAddress(old(mapInfo)[ids[k]])
      ensures |r| < Wanted(|vRandom|, maxAddresses, maxPct) ==>
        forall id | id in old(mapInfo) && Offered(e, old(mapInfo)[id], network, now) :: id in ids
    {
      hide Intact, Dated, Shrunk, Chosen, Wanted, Ops.SwapAll, AddrManSpec.SwapRandom, MaySwap;
      r, ids, swaps := [], [], [];
      var nodes := Wanted(|vRandom|, maxAddresses, maxPct);
      ghost var s := S();
      NothingChosen(e, s, vRandom[..0], network, now);
      NoSwaps(e, s);
      var n := 0;
      while n < |vRandom| && |r| < nodes
        invariant 0 <= n <= |vRandom| == |s.vRandom| && |swaps| == n
        invariant forall j | 0 <= j < |swaps| :: swaps[j].0 == j <= swaps[j].1 < |s.vRandom|
        invariant Intact(e, S()) && S() == Ops.SwapAll(e, s, swaps)
        invariant Shrunk(s, S()) && mapInfo.Keys == s.mapInfo.Keys
        invariant multiset(vRandom) == multiset(s.vRandom)
        invariant |ids| == |r| <= nodes && Chosen(e, s, vRandom[..n], network, now, ids)
        invariant forall k | 0 <= k < |ids| :: ids[k] in s.mapInfo && r[k] == AsAddress(s.mapInfo[ids[k]])
      {
        var info, pick := Draw(n, s, network, now, ids);
        OneMoreSwap(e, s, swaps, n, pick);
        swaps := swaps + [(n, pick)];
        if (network.None? || e.netClass(info.service.net) == network.value) && !info.IsTerrible(now) {
          r := r + [AsAddress(info)];
          ids := ids + [vRandom[n]];
        }
        n := n + 1;
      }
      ChosenDistinct(e, s, vRandom[..n], network, now, ids);
      if |r| < nodes {
        AllChosen(e, s, S(), network, now, ids);
      }
    }

    /** Move a random entry not looked at yet to the front of those. */
    method Draw(n: nat, ghost s: State, ghost network: Option<nat>, ghost now: int, ghost ids: seq<int>)
      returns (info: Info, ghost picked: nat)
      requires Intact(e, S()) && n < |vRandom| && Shrunk(s, S()) && mapInfo.Keys == s.mapInfo.Keys
      requires Chosen(e, s, vRandom[..n], network, now, ids)
      modifies this
      ensures Intact(e, S()) && Shrunk(s, S()) && mapInfo.Keys == s.mapInfo.Keys
      ensures n <= picked < |old(vRandom)| && MaySwap(old(S()), n, picked)
      ensures S() == AddrManSpec.SwapRandom(old(S()), n, picked)
      ensures |vRandom| == |old(vRandom)| && multiset(vRandom) == old(multiset(vRandom))
      ensures vRandom[n] in s.mapInfo && AsAddress(info) == AsAddress(s.mapInfo[vRandom[n]])
      ensures Offered(e, info, network, now) == Offered(e, s.mapInfo[vRandom[n]], network, now)
      ensures Chosen(e, s, vRandom[..n + 1], network, now,
                     if Offered(e, s.mapInfo[vRandom[n]], network, now) then ids + [vRandom[n]] else ids)
    {
      hide Intact, Shrunk, Chosen;
      var pick: nat :| n <= pick < |vRandom|;
      picked := pick;
      DrawSteps(e, s, S(), n, pick, network, now, ids);
      SwapRandom(n, pick);
      info := mapInfo[vRandom[n]];
    }
  }
}
