/** The operations of the address manager; each keeps the invariant. */
module AddrManOps {
  import opened Wrappers
  import opened AddrManSpec
  import opened AddrManLemmas

  /** All but the fields that Add_, Good_, Attempt_, Connected_ and SetServices_ set in an entry. */
  ghost predicate SamePlace(a: Info, b: Info) {
    && b.service == a.service && b.source == a.source && b.refCount == a.refCount
    && b.inTried == a.inTried && b.randomPos == a.randomPos
  }

  /** Changing what the tables do not look at keeps them consistent. */
  lemma InfoUpdated(e: Env, s: State, id: int, info: Info, limbo: set<int>, uncounted: int)
    requires Consistent(e, s, limbo, uncounted) && id in s.mapInfo && SamePlace(s.mapInfo[id], info)
    ensures Consistent(e, WithInfo(s, id, info), limbo, uncounted)
    ensures CollisionsOk(e, s) ==> CollisionsOk(e, WithInfo(s, id, info))
  {
    var t := WithInfo(s, id, info);
    UpdatedTables(e, s, id, info);
    UpdatedInfos(e, s, id, info, limbo);
    hide TablesOk, InfoOk;
    SameIndexes(s, t);
    assert TriedIds(t) == TriedIds(s);
    assert NewIds(t) == NewIds(s);
  }

  lemma UpdatedTables(e: Env, s: State, id: int, info: Info)
    requires TablesOk(e, s) && id in s.mapInfo && SamePlace(s.mapInfo[id], info)
    ensures TablesOk(e, WithInfo(s, id, info))
    ensures CollisionsOk(e, s) ==> CollisionsOk(e, WithInfo(s, id, info))
  {
  }

  lemma UpdatedInfos(e: Env, s: State, id: int, info: Info, limbo: set<int>)
    requires Shaped(s.vvNew, NEW_BUCKET_COUNT) && Shaped(s.vvTried, TRIED_BUCKET_COUNT)
    requires forall x | x in s.mapInfo :: InfoOk(e, s, limbo, x)
    requires id in s.mapInfo && SamePlace(s.mapInfo[id], info)
    ensures forall x | x in s.mapInfo :: InfoOk(e, WithInfo(s, id, info), limbo, x)
  {
    forall x | x in s.mapInfo ensures InfoOk(e, WithInfo(s, id, info), limbo, x) {
      assert InfoOk(e, s, limbo, x);
    }
  }

  // ----- MakeTried -----

  /** Where an evicted entry goes back to: the new bucket of its own source. */
  function HomeBucket(e: Env, info: Info): (b: nat)
    ensures b < NEW_BUCKET_COUNT
  {
    e.NewBucket(info.service, info.source)
  }

  function HomePosition(e: Env, info: Info): (i: nat)
    ensures i < BUCKET_SIZE
  {
    e.Position(true, HomeBucket(e, info), info.service)
  }

  /** An entry in limbo put into its home slot of the new table, replacing what is there, and counted. */
  function Reinstated(e: Env, s: State, id: int, ghost limbo: set<int>, ghost uncounted: int): State
    requires Consistent(e, s, limbo, uncounted) && id in limbo
  {
    var b, i := HomeBucket(e, s.mapInfo[id]), HomePosition(e, s.mapInfo[id]);
    ClearNewOk(e, s, limbo, uncounted, b, i);
    LimboSurvives(e, s, limbo, uncounted, b, i, id);
    var c := ClearNew(s, b, i);
    AddReference(c, b, i, id).(nNew := c.nNew + 1)
  }

  /** Clearing a slot cannot touch an entry in limbo. */
  lemma LimboSurvives(e: Env, s: State, limbo: set<int>, uncounted: int, b: nat, i: nat, id: int)
    requires Consistent(e, s, limbo, uncounted) && id in limbo && b < NEW_BUCKET_COUNT && i < BUCKET_SIZE
    ensures s.vvNew[b][i] != id && MayClearNew(s, b, i)
    ensures Consistent(e, ClearNew(s, b, i), limbo, uncounted)
    ensures var c := ClearNew(s, b, i);
      && Shaped(c.vvNew, NEW_BUCKET_COUNT) && c.vvNew[b][i] == -1
      && id in c.mapInfo && SameInfo(s.mapInfo[id], c.mapInfo[id])
      && !c.mapInfo[id].inTried && c.mapInfo[id].refCount == 0
  {
    LimboInNoTable(e, s, limbo, uncounted, id);
    ClearNewOk(e, s, limbo, uncounted, b, i);
    assert InfoOk(e, s, limbo, id);
  }

  lemma ReinstatedOk(e: Env, s: State, id: int, limbo: set<int>, uncounted: int)
    requires Consistent(e, s, limbo, uncounted) && id in limbo
    ensures Consistent(e, Reinstated(e, s, id, limbo, uncounted), limbo - {id}, uncounted - 1)
  {
    assert id in s.mapInfo;
    hide Consistent, MayClearNew, ClearNew;
    ReinstatedAt(e, s, id, limbo, uncounted, HomeBucket(e, s.mapInfo[id]), HomePosition(e, s.mapInfo[id]));
  }

  lemma ReinstatedAt(e: Env, s: State, id: int, limbo: set<int>, uncounted: int, b: nat, i: nat)
    requires Consistent(e, s, limbo, uncounted) && id in limbo
    requires b < NEW_BUCKET_COUNT && i < BUCKET_SIZE && i == e.Position(true, b, s.mapInfo[id].service)
    ensures MayClearNew(s, b, i)
    ensures var c := ClearNew(s, b, i);
      && Shaped(c.vvNew, NEW_BUCKET_COUNT) && id in c.mapInfo
      && Consistent(e, AddReference(c, b, i, id).(nNew := c.nNew + 1), limbo - {id}, uncounted - 1)
  {
    hide Consistent, MayClearNew, ClearNew;
    LimboSurvives(e, s, limbo, uncounted, b, i, id);
    ReferencedAndCounted(e, ClearNew(s, b, i), limbo, uncounted, b, i, id);
  }

  lemma ReferencedAndCounted(e: Env, s: State, limbo: set<int>, uncounted: int, b: nat, i: nat, id: int)
    requires Consistent(e, s, limbo, uncounted)
    requires id in s.mapInfo && !s.mapInfo[id].inTried && s.mapInfo[id].refCount == 0
    requires b < NEW_BUCKET_COUNT && i == e.Position(true, b, s.mapInfo[id].service) && s.vvNew[b][i] == -1
    ensures Consistent(e, AddReference(s, b, i, id).(nNew := s.nNew + 1), limbo - {id}, uncounted - 1)
  {
    AddReferenceOk(e, s, limbo, uncounted, b, i, id);
    CountedOne(e, AddReference(s, b, i, id), limbo - {id}, uncounted - 1);
  }

  /** Counting an entry in nNew that was not. */
  lemma CountedOne(e: Env, s: State, limbo: set<int>, uncounted: int)
    requires Consistent(e, s, limbo, uncounted + 1)
    ensures Consistent(e, s.(nNew := s.nNew + 1), limbo, uncounted)
  {
    var t := s.(nNew := s.nNew + 1);
    assert TriedIds(t) == TriedIds(s) && NewIds(t) == NewIds(s);
    forall x | x in t.mapInfo ensures InfoOk(e, t, limbo, x) {
      assert InfoOk(e, s, limbo, x);
    }
  }

  /** Equal but for the reference count, the table and the position in vRandom. */
  ghost predicate SameFacts(a: Info, b: Info) {
    a.(refCount := 0, inTried := false, randomPos := 0) == b.(refCount := 0, inTried := false, randomPos := 0)
  }

  function MakeTried(e: Env, s: State, id: int): State
    requires Consistent(e, s, {}, 0) && id in s.mapInfo && !s.mapInfo[id].inTried
  {
    DetachedOk(e, s, id);
    var a := s.mapInfo[id].service;
    var b, i := e.TriedBucket(a), e.Position(false, e.TriedBucket(a), a);
    var t := Detached(e, s, id);
    if t.vvTried[b][i] == -1 then Placed(e, t, id) else
    var evicted := t.vvTried[b][i];
    EvictedOk(e, t, {id}, 1, b, i);
    ReinstatedOk(e, Evicted(t, b, i), evicted, {id, evicted}, 2);
    Placed(e, Reinstated(e, Evicted(t, b, i), evicted, {id, evicted}, 2), id)
  }

  lemma MakeTriedOk(e: Env, s: State, id: int)
    requires Consistent(e, s, {}, 0) && id in s.mapInfo && !s.mapInfo[id].inTried
    ensures Consistent(e, MakeTried(e, s, id), {}, 0)
  {
    var a := s.mapInfo[id].service;
    var b, i := e.TriedBucket(a), e.Position(false, e.TriedBucket(a), a);
    assert Shaped(s.vvNew, NEW_BUCKET_COUNT) && Shaped(s.vvTried, TRIED_BUCKET_COUNT);
    hide Consistent, Reinstated;
    DetachedOk(e, s, id);
    var t := Detached(e, s, id);
    if t.vvTried[b][i] == -1 {
      PlacedOk(e, t, id);
    } else {
      var evicted := t.vvTried[b][i];
      EvictedOk(e, t, {id}, 1, b, i);
      var v := Evicted(t, b, i);
      assert {id} + {evicted} == {id, evicted};
      ReinstatedOk(e, v, evicted, {id, evicted}, 2);
      ReinstatedRest(e, v, evicted, {id, evicted}, 2, id);
      assert {id, evicted} - {evicted} == {id};
      PlacedOk(e, Reinstated(e, v, evicted, {id, evicted}, 2), id);
    }
  }

  /** What reinstating an entry leaves alone. */
  ghost predicate RestKept(e: Env, s: State, t: State, id: int, x: int)
    requires Shaped(s.vvNew, NEW_BUCKET_COUNT) && id in s.mapInfo
  {
    && t.vvTried == s.vvTried && t.idCount == s.idCount && t.lastGood == s.lastGood && t.collisions == s.collisions
    && t.mapInfo.Keys <= s.mapInfo.Keys
    && (x in t.mapInfo ==> SameFacts(s.mapInfo[x], t.mapInfo[x]) && t.mapInfo[x].inTried == s.mapInfo[x].inTried)
    && (x in s.mapInfo && x !in t.mapInfo ==>
        x == s.vvNew[HomeBucket(e, s.mapInfo[id])][HomePosition(e, s.mapInfo[id])] && s.mapInfo[x].refCount == 1)
  }

  lemma ReinstatedRest(e: Env, s: State, id: int, limbo: set<int>, uncounted: int, x: int)
    requires Consistent(e, s, limbo, uncounted) && id in limbo
    ensures RestKept(e, s, Reinstated(e, s, id, limbo, uncounted), id, x)
    ensures x in limbo ==> x in Reinstated(e, s, id, limbo, uncounted).mapInfo
  {
    var b, i := HomeBucket(e, s.mapInfo[id]), HomePosition(e, s.mapInfo[id]);
    ClearNewOk(e, s, limbo, uncounted, b, i);
    LimboSurvives(e, s, limbo, uncounted, b, i, id);
    if x in limbo { LimboSurvives(e, s, limbo, uncounted, b, i, x); }
    ClearedRestKept(e, s, ClearNew(s, b, i), id, x);
  }

  lemma ClearedRestKept(e: Env, s: State, c: State, id: int, x: int)
    requires Shaped(s.vvNew, NEW_BUCKET_COUNT) && Shaped(c.vvNew, NEW_BUCKET_COUNT)
    requires id in s.mapInfo && id in c.mapInfo
    requires var b, i := HomeBucket(e, s.mapInfo[id]), HomePosition(e, s.mapInfo[id]);
      Cleared(s, c, b, i) && s.vvNew[b][i] != id
    ensures var b, i := HomeBucket(e, s.mapInfo[id]), HomePosition(e, s.mapInfo[id]);
      RestKept(e, s, AddReference(c, b, i, id).(nNew := c.nNew + 1), id, x)
  {
  }

  /** What MakeTried does to one entry. */
  ghost predicate PromotedEntry(e: Env, s: State, t: State, id: int, evicted: int, x: int)
    requires Shaped(s.vvNew, NEW_BUCKET_COUNT)
  {
    && (x in t.mapInfo ==>
        && x in s.mapInfo && SameFacts(s.mapInfo[x], t.mapInfo[x])
        && t.mapInfo[x].inTried == if x == id then true else if x == evicted then false else s.mapInfo[x].inTried)
    && (x in s.mapInfo && x !in t.mapInfo ==>
        && x != id && x != evicted && evicted in s.mapInfo && s.mapInfo[x].refCount == 1
        && x == s.vvNew[HomeBucket(e, s.mapInfo[evicted])][HomePosition(e, s.mapInfo[evicted])])
  }

  /**
    What MakeTried does: the entry is in its tried slot, no other tried slot changes, the
    entry that was there is a new one again, and of the others at most one is gone, whose
    only reference sat in the home slot of the evicted entry.
  */
  ghost predicate Promoted(e: Env, s: State, t: State, id: int)
    requires Shaped(s.vvTried, TRIED_BUCKET_COUNT) && Shaped(s.vvNew, NEW_BUCKET_COUNT) && id in s.mapInfo
  {
    var a := s.mapInfo[id].service;
    && t.vvTried == Put(s.vvTried, e.TriedBucket(a), e.Position(false, e.TriedBucket(a), a), id)
    && t.idCount == s.idCount && t.lastGood == s.lastGood && t.collisions == s.collisions
    && forall x {:trigger x in t.mapInfo} {:trigger x in s.mapInfo} :: PromotedEntry(e, s, t, id, TriedSlot(e, s, a), x)
  }

  lemma MakeTriedPromotes(e: Env, s: State, id: int)
    requires Consistent(e, s, {}, 0) && id in s.mapInfo && !s.mapInfo[id].inTried
    ensures Promoted(e, s, MakeTried(e, s, id), id)
  {
    assert -1 !in s.mapInfo;
    var evicted := TriedSlot(e, s, s.mapInfo[id].service);
    forall x
      ensures PromotedEntry(e, s, MakeTried(e, s, id), id, evicted, x)
    {
      if evicted != -1 { PromotedByEviction(e, s, id, x); }
    }
    if evicted != -1 { PromotedByEviction(e, s, id, id); }
  }

  lemma PromotedByEviction(e: Env, s: State, id: int, x: int)
    requires Consistent(e, s, {}, 0) && id in s.mapInfo && !s.mapInfo[id].inTried
    requires TriedSlot(e, s, s.mapInfo[id].service) != -1
    ensures PromotedEntry(e, s, MakeTried(e, s, id), id, TriedSlot(e, s, s.mapInfo[id].service), x)
    ensures var a := s.mapInfo[id].service; var t := MakeTried(e, s, id);
      && t.vvTried == Put(s.vvTried, e.TriedBucket(a), e.Position(false, e.TriedBucket(a), a), id)
      && t.idCount == s.idCount && t.lastGood == s.lastGood && t.collisions == s.collisions
  {
    DetachedOk(e, s, id);
    var a := s.mapInfo[id].service;
    var b, i := e.TriedBucket(a), e.Position(false, e.TriedBucket(a), a);
    var t := Detached(e, s, id);
    var evicted := t.vvTried[b][i];
    EvictedOk(e, t, {id}, 1, b, i);
    var v := Evicted(t, b, i);
    assert {id} + {evicted} == {id, evicted};
    var r := Reinstated(e, v, evicted, {id, evicted}, 2);
    ReinstatedRest(e, v, evicted, {id, evicted}, 2, x);
    ReinstatedRest(e, v, evicted, {id, evicted}, 2, id);
    ReinstatedRest(e, v, evicted, {id, evicted}, 2, evicted);
    PutTwice(s.vvTried, b, i, -1, id);
    assert x in s.mapInfo ==> x >= 0;
    hide Consistent, Reinstated;
    PromotedChain(e, s, r, id, x);
  }

  lemma PromotedChain(e: Env, s: State, r: State, id: int, x: int)
    requires Shaped(s.vvNew, NEW_BUCKET_COUNT) && Shaped(s.vvTried, TRIED_BUCKET_COUNT) && id in s.mapInfo && id >= 0
    requires var a := s.mapInfo[id].service;
      && TriedSlot(e, s, a) in s.mapInfo && TriedSlot(e, s, a) != id
      && RestKept(e, Evicted(Detached(e, s, id), e.TriedBucket(a), e.Position(false, e.TriedBucket(a), a)), r,
                  TriedSlot(e, s, a), x)
      && TriedSlot(e, s, a) in r.mapInfo
    requires Shaped(r.vvTried, TRIED_BUCKET_COUNT) && id in r.mapInfo && r.mapInfo[id].service == s.mapInfo[id].service
    requires x in s.mapInfo ==> x >= 0
    ensures PromotedEntry(e, s, Placed(e, r, id), id, TriedSlot(e, s, s.mapInfo[id].service), x)
  {
  }

  lemma PutTwice(t: Table, b: nat, i: nat, x: int, y: int)
    requires b < |t| && i < |t[b]|
    ensures Put(Put(t, b, i, x), b, i, y) == Put(t, b, i, y)
  {
    assert t[b][i := x][i := y] == t[b][i := y];
  }

  /** Slots of the tried table never become empty, so pending collisions stay collisions. */
  lemma CollisionsKept(e: Env, s: State, t: State)
    requires Shaped(s.vvTried, TRIED_BUCKET_COUNT) && Shaped(t.vvTried, TRIED_BUCKET_COUNT) && CollisionsOk(e, s)
    requires t.collisions == s.collisions && s.idCount <= t.idCount
    requires forall x | x in t.mapInfo && x < s.idCount ::
      x in s.mapInfo && t.mapInfo[x].service == s.mapInfo[x].service
    requires forall b, i | 0 <= b < TRIED_BUCKET_COUNT && 0 <= i < BUCKET_SIZE && s.vvTried[b][i] != -1 ::
      t.vvTried[b][i] != -1
    ensures CollisionsOk(e, t)
  {
    forall id | id in t.collisions && id in t.mapInfo
      ensures TriedSlot(e, t, t.mapInfo[id].service) != -1
    {
      assert TriedSlot(e, s, s.mapInfo[id].service) != -1;
    }
  }

  // ----- Good_ -----

  /** The id of exactly this address and port. */
  function FindExact(s: State, addr: Service): Option<int> {
    var found := Find(s, addr.net);
    if found.Some? && s.mapInfo[found.value].service == addr then found else None
  }

  /** The entry of a peer that was reached. */
  function Marked(info: Info, time: int): Info {
    info.(lastSuccess := time, lastTry := time, attempts := 0)
  }

  ghost function Good(e: Env, s: State, addr: Service, testBeforeEvict: bool, time: int): State
    requires Intact(e, s)
  {
    var s0 := s.(lastGood := time);
    var found := Find(s0, addr.net);
    if found.None? || s0.mapInfo[found.value].service != addr then s0 else
    var id := found.value;
    var info := s0.mapInfo[id];
    var s1 := WithInfo(s0, id, Marked(info, time));
    if info.inTried then s1
    else if NewBuckets(e, s1.vvNew, info.service, id) == {} then s1  // "something bad happened"
    else if testBeforeEvict && TriedSlot(e, s1, info.service) != -1 then
      if |s1.collisions| < SET_TRIED_COLLISION_SIZE then s1.(collisions := s1.collisions + {id}) else s1
    else
      LastGoodSet(e, s, time);
      InfoUpdated(e, s0, id, Marked(info, time), {}, 0);
      MakeTried(e, s1, id)
  }

  lemma LastGoodSet(e: Env, s: State, time: int)
    requires Intact(e, s)
    ensures Intact(e, s.(lastGood := time))
  {
    var t := s.(lastGood := time);
    assert TriedIds(t) == TriedIds(s) && NewIds(t) == NewIds(s);
    forall x | x in t.mapInfo ensures InfoOk(e, t, {}, x) { assert InfoOk(e, s, {}, x); }
  }

  /**
    The times at which Good_ leaves the dates of a known entry in order: the epoch itself
    will do only for an entry that has to wait for its tried slot.
  */
  predicate GoodTime(e: Env, s: State, addr: Service, testBeforeEvict: bool, time: int)
    requires Shaped(s.vvTried, TRIED_BUCKET_COUNT)
  {
    var found := FindExact(s, addr);
    || found.None?
    || time > 0
    || (time == 0 && !s.mapInfo[found.value].inTried && testBeforeEvict && TriedSlot(e, s, addr) != -1)
  }

  /** Good_ at any time keeps the tables intact, and the dates in order exactly at a good time. */
  lemma GoodKeepsInv(e: Env, s: State, addr: Service, testBeforeEvict: bool, time: int)
    requires Intact(e, s)
    ensures Intact(e, Good(e, s, addr, testBeforeEvict, time))
    ensures Dated(s) ==>
      (Dated(Good(e, s, addr, testBeforeEvict, time)) <==> GoodTime(e, s, addr, testBeforeEvict, time))
  {
    GoodKeepsIntact(e, s, addr, testBeforeEvict, time);
    if Dated(s) { GoodDates(e, s, addr, testBeforeEvict, time); }
  }

  lemma GoodDates(e: Env, s: State, addr: Service, testBeforeEvict: bool, time: int)
    requires Inv(e, s)
    ensures Dated(Good(e, s, addr, testBeforeEvict, time)) <==> GoodTime(e, s, addr, testBeforeEvict, time)
  {
    var found := FindExact(s, addr);
    assert Shaped(s.vvTried, TRIED_BUCKET_COUNT);
    hide Intact, Good, Promoted;
    GoodCases(e, s, addr, testBeforeEvict, time);
    if found.Some? {
      var id := found.value;
      var marked := s.mapInfo[id := Marked(s.mapInfo[id], time)];
      assert forall x | x in marked && x != id :: marked[x] == s.mapInfo[x];
      assert TimesOk(s.mapInfo[id]);
      if !s.mapInfo[id].inTried && !(testBeforeEvict && TriedSlot(e, s, addr) != -1) {
        PromotedDates(e, s.(lastGood := time, mapInfo := marked), Good(e, s, addr, testBeforeEvict, time), id);
      } else {
        assert id in marked;
      }
    }
  }

  /** What Good_ does to the entries, case by case. */
  lemma GoodCases(e: Env, s: State, addr: Service, testBeforeEvict: bool, time: int)
    requires Intact(e, s)
    ensures var t := Good(e, s, addr, testBeforeEvict, time);
      var found := FindExact(s, addr);
      if found.None? then t.mapInfo == s.mapInfo else
      var id := found.value;
      var marked := s.mapInfo[id := Marked(s.mapInfo[id], time)];
      && Shaped(s.vvTried, TRIED_BUCKET_COUNT) && Shaped(s.vvNew, NEW_BUCKET_COUNT)
      && if s.mapInfo[id].inTried || (testBeforeEvict && TriedSlot(e, s, addr) != -1) then t.mapInfo == marked
         else Promoted(e, s.(lastGood := time, mapInfo := marked), t, id)
  {
    var found := FindExact(s, addr);
    if found.Some? && !s.mapInfo[found.value].inTried {
      LastGoodSet(e, s, time);
      var s0, id := s.(lastGood := time), found.value;
      InfoUpdated(e, s0, id, Marked(s0.mapInfo[id], time), {}, 0);
      var s1 := WithInfo(s0, id, Marked(s0.mapInfo[id], time));
      GoodTail(e, s1, id, testBeforeEvict);
      hide Consistent, CollisionsOk, MakeTried, Promoted;
      MakeTriedPromotes(e, s1, id);
    }
  }

  lemma PromotedDates(e: Env, s: State, t: State, id: int)
    requires Shaped(s.vvTried, TRIED_BUCKET_COUNT) && Shaped(s.vvNew, NEW_BUCKET_COUNT) && id in s.mapInfo
    requires Promoted(e, s, t, id) && forall x | x in s.mapInfo && x != id :: TimesOk(s.mapInfo[x])
    ensures Dated(t) <==> s.mapInfo[id].lastTry >= 0 && s.mapInfo[id].lastSuccess > 0
  {
    assert PromotedEntry(e, s, t, id, TriedSlot(e, s, s.mapInfo[id].service), id);
    forall x | x in t.mapInfo && x != id ensures TimesOk(t.mapInfo[x]) {
      assert PromotedEntry(e, s, t, id, TriedSlot(e, s, s.mapInfo[id].service), x);
    }
  }

  lemma GoodKeepsIntact(e: Env, s: State, addr: Service, testBeforeEvict: bool, time: int)
    requires Intact(e, s)
    ensures Intact(e, Good(e, s, addr, testBeforeEvict, time))
  {
    hide Consistent, CollisionsOk;
    LastGoodSet(e, s, time);
    var s0 := s.(lastGood := time);
    var found := FindExact(s0, addr);
    if found.Some? {
      var info := Marked(s0.mapInfo[found.value], time);
      InfoUpdated(e, s0, found.value, info, {}, 0);
      if !info.inTried {
        GoodTail(e, WithInfo(s0, found.value, info), found.value, testBeforeEvict);
      }
    }
  }

  /** The rest of Good_ once the entry is found, in the new table and marked as good. */
  lemma GoodTail(e: Env, s: State, id: int, testBeforeEvict: bool)
    requires Intact(e, s) && id in s.mapInfo && !s.mapInfo[id].inTried
    ensures NewBuckets(e, s.vvNew, s.mapInfo[id].service, id) != {}
    ensures Intact(e, MakeTried(e, s, id))
    ensures TriedSlot(e, s, s.mapInfo[id].service) != -1 && |s.collisions| < SET_TRIED_COLLISION_SIZE
            ==> Intact(e, s.(collisions := s.collisions + {id}))
  {
    assert InfoOk(e, s, {}, id);
    assert 0 <= id < s.idCount;
    MakeTriedKeepsInv(e, s, id);
    CollisionAdded(e, s, id);
  }

  lemma MakeTriedKeepsInv(e: Env, s: State, id: int)
    requires Intact(e, s) && id in s.mapInfo && !s.mapInfo[id].inTried
    ensures Intact(e, MakeTried(e, s, id))
  {
    MakeTriedPromotes(e, s, id);
    MakeTriedOk(e, s, id);
    assert id >= 0 && Shaped(s.vvTried, TRIED_BUCKET_COUNT) && Shaped(s.vvNew, NEW_BUCKET_COUNT);
    hide Consistent, MakeTried;
    PromotedKeepsCollisions(e, s, MakeTried(e, s, id), id);
  }

  lemma PromotedKeepsCollisions(e: Env, s: State, t: State, id: int)
    requires Shaped(s.vvTried, TRIED_BUCKET_COUNT) && Shaped(s.vvNew, NEW_BUCKET_COUNT) && id in s.mapInfo && id >= 0
    requires CollisionsOk(e, s) && Promoted(e, s, t, id)
    ensures Shaped(t.vvTried, TRIED_BUCKET_COUNT) && CollisionsOk(e, t)
  {
    forall x | x in t.mapInfo ensures x in s.mapInfo && t.mapInfo[x].service == s.mapInfo[x].service {
      assert PromotedEntry(e, s, t, id, TriedSlot(e, s, s.mapInfo[id].service), x);
    }
    CollisionsKept(e, s, t);
  }

  lemma CollisionAdded(e: Env, s: State, id: int)
    requires Intact(e, s) && id in s.mapInfo
    requires 0 <= id < s.idCount
    ensures TriedSlot(e, s, s.mapInfo[id].service) != -1 && |s.collisions| < SET_TRIED_COLLISION_SIZE
            ==> Intact(e, s.(collisions := s.collisions + {id}))
  {
    var t := s.(collisions := s.collisions + {id});
    assert TriedIds(t) == TriedIds(s) && NewIds(t) == NewIds(s);
    forall x | x in t.mapInfo ensures InfoOk(e, t, {}, x) { assert InfoOk(e, s, {}, x); }
  }

  // ----- Add_ -----

  function Max(a: int, b: int): int {
    if a < b then b else a
  }

  /** The entry after Add_ saw its address again: time moved forward, services joined. */
  function Refreshed(info: Info, addr: Address, penalty: int, now: int): Info {
    var interval := if now - addr.time < 24 * 60 * 60 then 60 * 60 else 24 * 60 * 60;
    var time := if addr.time != 0 && (info.time == 0 || info.time < addr.time - interval - penalty)
                then Max(0, addr.time - penalty) else info.time;
    info.(time := time, services := info.services + addr.services)
  }

  /** Whether Add_ goes on to look for a further bucket for an entry it knows. */
  predicate WantsMore(info: Info, addr: Address, lucky: bool) {
    && addr.time != 0 && (info.time == 0 || addr.time > info.time)
    && !info.inTried
    && info.refCount != NEW_BUCKETS_PER_ADDRESS
    && (info.refCount <= 0 || lucky)
  }

  /** The slot Add_ looks at, and whether it takes it. */
  predicate TakesSlot(s: State, id: int, b: nat, i: nat, now: int)
    requires Shaped(s.vvNew, NEW_BUCKET_COUNT) && b < NEW_BUCKET_COUNT && i < BUCKET_SIZE && id in s.mapInfo
    requires s.vvNew[b][i] != -1 ==> s.vvNew[b][i] in s.mapInfo
  {
    || s.vvNew[b][i] == -1
    || s.mapInfo[s.vvNew[b][i]].IsTerrible(now)
    || (s.mapInfo[s.vvNew[b][i]].refCount > 1 && s.mapInfo[id].refCount == 0)
  }

  /** The second half of Add_: one more reference, or no entry if it would have none. */
  ghost function Bucketed(e: Env, s: State, id: int, source: NetAddr, now: int, limbo: set<int>): State
    requires Consistent(e, s, limbo, 0) && limbo <= {id} && id in s.mapInfo && !s.mapInfo[id].inTried
  {
    var a := s.mapInfo[id].service;
    var b := e.NewBucket(a, source);
    var i := e.Position(true, b, a);
    if s.vvNew[b][i] == id then s
    else if TakesSlot(s, id, b, i, now) then
      ClearNewOk(e, s, limbo, 0, b, i);
      AddReference(ClearNew(s, b, i), b, i, id)
    else if s.mapInfo[id].refCount == 0 then
      ZeroIsLimbo(e, s, limbo, id);
      DeleteOk(e, s, limbo, 0, id);
      Delete(s, id)
    else s
  }

  lemma ZeroIsLimbo(e: Env, s: State, limbo: set<int>, id: int)
    requires Consistent(e, s, limbo, 0) && id in s.mapInfo && !s.mapInfo[id].inTried
    ensures s.mapInfo[id].refCount == 0 <==> id in limbo
    ensures 0 <= s.mapInfo[id].refCount <= NEW_BUCKETS_PER_ADDRESS
  {
    assert InfoOk(e, s, limbo, id);
  }

  lemma BucketedOk(e: Env, s: State, id: int, source: NetAddr, now: int, limbo: set<int>)
    requires Consistent(e, s, limbo, 0) && limbo <= {id} && id in s.mapInfo && !s.mapInfo[id].inTried
    requires s.mapInfo[id].refCount < NEW_BUCKETS_PER_ADDRESS
    ensures Consistent(e, Bucketed(e, s, id, source, now, limbo), {}, 0)
  {
    ZeroIsLimbo(e, s, limbo, id);
    var a := s.mapInfo[id].service;
    var b := e.NewBucket(a, source);
    var i := e.Position(true, b, a);
    assert id >= 0 && Shaped(s.vvNew, NEW_BUCKET_COUNT);
    if s.vvNew[b][i] == id {
      if limbo != {} { LimboInNoTable(e, s, limbo, 0, id); assert false; }
    } else if TakesSlot(s, id, b, i, now) {
      ReferencedAfterClear(e, s, limbo, b, i, id);
    } else if s.mapInfo[id].refCount == 0 {
      DeleteOk(e, s, limbo, 0, id);
      assert limbo - {id} == {};
    }
  }

  lemma ReferencedAfterClear(e: Env, s: State, limbo: set<int>, b: nat, i: nat, id: int)
    requires Consistent(e, s, limbo, 0) && limbo <= {id} && id in s.mapInfo && !s.mapInfo[id].inTried
    requires s.mapInfo[id].refCount < NEW_BUCKETS_PER_ADDRESS
    requires b < NEW_BUCKET_COUNT && i == e.Position(true, b, s.mapInfo[id].service) && s.vvNew[b][i] != id
    ensures MayClearNew(s, b, i)
    ensures var c := ClearNew(s, b, i);
      && Shaped(c.vvNew, NEW_BUCKET_COUNT) && id in c.mapInfo
      && Consistent(e, AddReference(c, b, i, id), {}, 0)
  {
    assert Shaped(s.vvNew, NEW_BUCKET_COUNT);
    hide Consistent, MayClearNew, ClearNew;
    ClearNewOk(e, s, limbo, 0, b, i);
    AddReferenceOk(e, ClearNew(s, b, i), limbo, 0, b, i, id);
    assert limbo - {id} == {};
  }

  ghost function Add(e: Env, s: State, addr: Address, source: NetAddr, timePenalty: int, now: int, lucky: bool)
    : (State, bool)
    requires Intact(e, s)
  {
    if !e.isRoutable(addr.service.net) then (s, false) else
    var penalty := if addr.service.net == source then 0 else timePenalty;
    var found := Find(s, addr.service.net);
    match found
    case Some(id) =>
      var info := Refreshed(s.mapInfo[id], addr, penalty, now);
      var t := WithInfo(s, id, info);
      if !WantsMore(info, addr, lucky) then (t, false) else
      RefreshedOk(e, s, id, addr, penalty, now);
      (Bucketed(e, t, id, source, now, {}), false)
    case None =>
      CreatedOk(e, s, addr, source, penalty);
      (Bucketed(e, Created(s, addr, source, penalty), s.idCount, source, now, {s.idCount}), true)
  }

  function Created(s: State, addr: Address, source: NetAddr, penalty: int): State {
    var t := Create(s, addr, source);
    WithInfo(t, s.idCount, t.mapInfo[s.idCount].(time := Max(0, addr.time - penalty))).(nNew := s.nNew + 1)
  }

  lemma RefreshedOk(e: Env, s: State, id: int, addr: Address, penalty: int, now: int)
    requires Intact(e, s) && id in s.mapInfo
    ensures Intact(e, WithInfo(s, id, Refreshed(s.mapInfo[id], addr, penalty, now)))
  {
    assert InfoOk(e, s, {}, id);
    InfoUpdated(e, s, id, Refreshed(s.mapInfo[id], addr, penalty, now), {}, 0);
  }

  lemma CreatedOk(e: Env, s: State, addr: Address, source: NetAddr, penalty: int)
    requires Consistent(e, s, {}, 0) && s.idCount >= 0 && Find(s, addr.service.net).None?
    ensures Consistent(e, Created(s, addr, source, penalty), {s.idCount}, 0)
  {
    hide Consistent;
    UnknownAddress(e, s, addr.service.net);
    CreateOk(e, s, {}, 0, addr, source);
    var t := Create(s, addr, source);
    assert {} + {s.idCount} == {s.idCount};
    var info := t.mapInfo[s.idCount].(time := Max(0, addr.time - penalty));
    InfoUpdated(e, t, s.idCount, info, {s.idCount}, 1);
    CountedOne(e, WithInfo(t, s.idCount, info), {s.idCount}, 0);
  }

  lemma UnknownAddress(e: Env, s: State, net: NetAddr)
    requires Consistent(e, s, {}, 0) && Find(s, net).None?
    ensures net !in s.mapAddr
  {
  }

  /** What the second half of Add_ leaves alone: everything but references and two kinds of entries. */
  ghost predicate RestOfAdd(s: State, t: State, id: int) {
    && t.vvTried == s.vvTried && t.collisions == s.collisions && t.idCount == s.idCount && t.lastGood == s.lastGood
    && t.mapInfo.Keys <= s.mapInfo.Keys
    && (forall x | x in t.mapInfo ::
        SameFacts(s.mapInfo[x], t.mapInfo[x]) && t.mapInfo[x].inTried == s.mapInfo[x].inTried)
    && (forall x | x in s.mapInfo && x !in t.mapInfo ::
        !s.mapInfo[x].inTried && s.mapInfo[x].refCount == if x == id then 0 else 1)
  }

  lemma BucketedRest(e: Env, s: State, id: int, source: NetAddr, now: int, limbo: set<int>)
    requires Consistent(e, s, limbo, 0) && limbo <= {id} && id in s.mapInfo && !s.mapInfo[id].inTried
    ensures RestOfAdd(s, Bucketed(e, s, id, source, now, limbo), id)
  {
    var a := s.mapInfo[id].service;
    var b := e.NewBucket(a, source);
    var i := e.Position(true, b, a);
    ZeroIsLimbo(e, s, limbo, id);
    assert Shaped(s.vvNew, NEW_BUCKET_COUNT) && -1 !in s.mapInfo;
    assert s.vvNew[b][i] in s.mapInfo ==> !s.mapInfo[s.vvNew[b][i]].inTried;
    assert s.vvNew[b][i] != -1 ==> s.vvNew[b][i] in s.mapInfo;
    hide Consistent, ClearNew, Delete, MayClearNew, MayDelete, TakesSlot;
    if s.vvNew[b][i] != id {
      if TakesSlot(s, id, b, i, now) {
        ClearNewOk(e, s, limbo, 0, b, i);
        ClearedRest(s, ClearNew(s, b, i), b, i, id);
      } else if s.mapInfo[id].refCount == 0 {
        DeleteOk(e, s, limbo, 0, id);
        ShrunkRest(s, Delete(s, id), id);
      }
    }
  }

  lemma ShrunkRest(s: State, t: State, id: int)
    requires Shrunk(s, t) && t.mapInfo.Keys == s.mapInfo.Keys - {id}
    requires id in s.mapInfo && !s.mapInfo[id].inTried && s.mapInfo[id].refCount == 0
    ensures RestOfAdd(s, t, id)
  {
    forall x | x in t.mapInfo
      ensures SameFacts(s.mapInfo[x], t.mapInfo[x]) && t.mapInfo[x].inTried == s.mapInfo[x].inTried
    {
      assert SameInfo(s.mapInfo[x], t.mapInfo[x]);
    }
  }

  lemma ClearedRest(s: State, c: State, b: nat, i: nat, id: int)
    requires Shaped(s.vvNew, NEW_BUCKET_COUNT) && b < NEW_BUCKET_COUNT && i < BUCKET_SIZE && Cleared(s, c, b, i)
    requires s.vvNew[b][i] in s.mapInfo ==> !s.mapInfo[s.vvNew[b][i]].inTried
    requires id in s.mapInfo && s.vvNew[b][i] != id && Shaped(c.vvNew, NEW_BUCKET_COUNT)
    ensures id in c.mapInfo && RestOfAdd(s, AddReference(c, b, i, id), id)
  {
  }

  lemma AddKeepsInv(e: Env, s: State, addr: Address, source: NetAddr, timePenalty: int, now: int, lucky: bool)
    requires Intact(e, s)
    ensures Intact(e, Add(e, s, addr, source, timePenalty, now, lucky).0)
    ensures Dated(s) ==> Dated(Add(e, s, addr, source, timePenalty, now, lucky).0)
  {
    var penalty := if addr.service.net == source then 0 else timePenalty;
    if e.isRoutable(addr.service.net) {
      match Find(s, addr.service.net)
      case Some(id) =>
        AddKnownKeepsInv(e, s, id, addr, source, penalty, now, lucky);
        AddKnownOutcome(e, s, id, addr, source, penalty, now, lucky);
      case None =>
        AddUnknownKeepsInv(e, s, addr, source, penalty, now);
        AddUnknownOutcome(e, s, addr, source, penalty, now);
    }
  }

  lemma AddKnownKeepsInv(e: Env, s: State, id: int, addr: Address, source: NetAddr, penalty: int, now: int, lucky: bool)
    requires Intact(e, s) && id in s.mapInfo
    ensures var info := Refreshed(s.mapInfo[id], addr, penalty, now);
      var t := WithInfo(s, id, info);
      Intact(e, t) && (WantsMore(info, addr, lucky) ==> Intact(e, Bucketed(e, t, id, source, now, {})))
  {
    RefreshedOk(e, s, id, addr, penalty, now);
    var info := Refreshed(s.mapInfo[id], addr, penalty, now);
    var t := WithInfo(s, id, info);
    if WantsMore(info, addr, lucky) {
      ZeroIsLimbo(e, t, {}, id);
      BucketedOk(e, t, id, source, now, {});
      BucketedRest(e, t, id, source, now, {});
      CollisionsKept(e, t, Bucketed(e, t, id, source, now, {}));
    }
  }

  lemma AddUnknownKeepsInv(e: Env, s: State, addr: Address, source: NetAddr, penalty: int, now: int)
    requires Intact(e, s) && Find(s, addr.service.net).None?
    ensures var t := Created(s, addr, source, penalty);
      Consistent(e, t, {s.idCount}, 0) && Intact(e, Bucketed(e, t, s.idCount, source, now, {s.idCount}))
  {
    CreatedOk(e, s, addr, source, penalty);
    var t := Created(s, addr, source, penalty);
    BucketedOk(e, t, s.idCount, source, now, {s.idCount});
    BucketedRest(e, t, s.idCount, source, now, {s.idCount});
    CollisionsKept(e, s, Bucketed(e, t, s.idCount, source, now, {s.idCount}));
  }

  /** Tried entries stay, with their address and history; entries gone had one reference. */
  ghost predicate HistoryKept(s: State, t: State) {
    && (forall x | x in s.mapInfo && s.mapInfo[x].inTried :: x in t.mapInfo && t.mapInfo[x].inTried)
    && (forall x | x in s.mapInfo && x !in t.mapInfo :: !s.mapInfo[x].inTried && s.mapInfo[x].refCount == 1)
    && (forall x | x in s.mapInfo && x in t.mapInfo ::
        t.mapInfo[x].service == s.mapInfo[x].service && t.mapInfo[x].lastSuccess == s.mapInfo[x].lastSuccess)
  }

  /**
    Whether the one slot an unknown address is tried in can be had: it is empty, or held by
    an entry that is terrible or has another reference.
  */
  predicate HasRoom(e: Env, s: State, a: Service, source: NetAddr, now: int)
    requires Shaped(s.vvNew, NEW_BUCKET_COUNT)
  {
    var b := e.NewBucket(a, source);
    var slot := s.vvNew[b][e.Position(true, b, a)];
    slot == -1 || (slot in s.mapInfo && (s.mapInfo[slot].IsTerrible(now) || s.mapInfo[slot].refCount > 1))
  }

  /** The entry Add_ makes for an address it did not know, in its slot. */
  ghost predicate Entered(e: Env, t: State, id: int, addr: Address, source: NetAddr, penalty: int)
    requires Shaped(t.vvNew, NEW_BUCKET_COUNT)
  {
    && id in t.mapInfo
    && SameFacts(t.mapInfo[id],
                 Info(addr.service, Max(0, addr.time - penalty), addr.services, source, 0, 0, 0, 0, 0, false, 0))
    && t.mapInfo[id].refCount == 1 && !t.mapInfo[id].inTried
    && NewBuckets(e, t.vvNew, addr.service, id) == {e.NewBucket(addr.service, source)}
  }

  /**
    What Add_ does: its result says whether the address was unknown and routable, it never
    touches the tried table, and ids are never reused. Afterwards a routable address is
    known if and only if it was before or there is room for it: reported as new, an address
    may have been dropped.
  */
  lemma AddOutcome(e: Env, s: State, addr: Address, source: NetAddr, timePenalty: int, now: int, lucky: bool)
    requires Intact(e, s)
    ensures var (t, isNew) := Add(e, s, addr, source, timePenalty, now, lucky);
      && isNew == (e.isRoutable(addr.service.net) && Find(s, addr.service.net).None?)
      && t.vvTried == s.vvTried && t.collisions == s.collisions && t.lastGood == s.lastGood
      && t.idCount == s.idCount + (if isNew then 1 else 0)
      && HistoryKept(s, t)
      && (e.isRoutable(addr.service.net) ==>
          (Find(t, addr.service.net).Some? <==>
           Find(s, addr.service.net).Some? || HasRoom(e, s, addr.service, source, now)))
      && (isNew ==>
          if HasRoom(e, s, addr.service, source, now) then
            && Shaped(t.vvNew, NEW_BUCKET_COUNT)
            && Entered(e, t, s.idCount, addr, source, if addr.service.net == source then 0 else timePenalty)
          else t.mapInfo.Keys == s.mapInfo.Keys)
  {
    var penalty := if addr.service.net == source then 0 else timePenalty;
    if e.isRoutable(addr.service.net) {
      AddKeepsInv(e, s, addr, source, timePenalty, now, lucky);
      hide Consistent, CollisionsOk, Bucketed, HasRoom, Entered;
      match Find(s, addr.service.net)
      case Some(id) =>
        AddKnownOutcome(e, s, id, addr, source, penalty, now, lucky);
        StillFound(e, s, Add(e, s, addr, source, timePenalty, now, lucky).0, id);
      case None =>
        AddUnknownOutcome(e, s, addr, source, penalty, now);
        UnknownEntered(e, s, addr, source, penalty, now);
    }
  }

  lemma StillFound(e: Env, s: State, t: State, id: int)
    requires Intact(e, s) && Intact(e, t) && id in s.mapInfo && id in t.mapInfo
    requires t.mapInfo[id].service.net == s.mapInfo[id].service.net
    ensures Find(t, s.mapInfo[id].service.net) == Some(id)
  {
  }

  /** The new entry is kept if and only if there is room for it. */
  lemma UnknownEntered(e: Env, s: State, addr: Address, source: NetAddr, penalty: int, now: int)
    requires Intact(e, s) && Find(s, addr.service.net).None?
    ensures var c := Created(s, addr, source, penalty);
      && Consistent(e, c, {s.idCount}, 0)
      && var t := Bucketed(e, c, s.idCount, source, now, {s.idCount});
      && Shaped(s.vvNew, NEW_BUCKET_COUNT) && Shaped(t.vvNew, NEW_BUCKET_COUNT)
      && (Find(t, addr.service.net).Some? <==> HasRoom(e, s, addr.service, source, now))
      && if HasRoom(e, s, addr.service, source, now) then Entered(e, t, s.idCount, addr, source, penalty)
         else t.mapInfo.Keys == s.mapInfo.Keys
  {
    hide Intact, Consistent, Bucketed, Find;
    var c, id := Created(s, addr, source, penalty), s.idCount;
    UnknownSteps(e, s, addr.service, source);
    AddUnknownKeepsInv(e, s, addr, source, penalty, now);
    BucketedEnters(e, c, id, source, now);
    BucketedRest(e, c, id, source, now, {id});
    var t := Bucketed(e, c, id, source, now, {id});
    EnteredIsFound(e, t, id, addr.service, source);
  }

  lemma UnknownSteps(e: Env, s: State, a: Service, source: NetAddr)
    requires Intact(e, s) && Find(s, a.net).None?
    ensures Shaped(s.vvNew, NEW_BUCKET_COUNT) && s.idCount >= 0 && s.idCount !in s.mapInfo
    ensures forall x | x in s.mapInfo :: s.mapInfo[x].service.net != a.net
    ensures var b := e.NewBucket(a, source);
      var slot := s.vvNew[b][e.Position(true, b, a)];
      slot != s.idCount && (slot == -1 || slot in s.mapInfo)
  {
    FoundIsEntry(e, s, a.net);
  }

  /** An entry without a reference is kept if and only if it takes its slot. */
  lemma BucketedEnters(e: Env, s: State, id: int, source: NetAddr, now: int)
    requires Consistent(e, s, {id}, 0) && !s.mapInfo[id].inTried
    ensures var a := s.mapInfo[id].service;
      var b := e.NewBucket(a, source);
      var i := e.Position(true, b, a);
      var t := Bucketed(e, s, id, source, now, {id});
      && Shaped(s.vvNew, NEW_BUCKET_COUNT) && Shaped(t.vvNew, NEW_BUCKET_COUNT)
      && (s.vvNew[b][i] != -1 ==> s.vvNew[b][i] in s.mapInfo)
      && if TakesSlot(s, id, b, i, now)
         then id in t.mapInfo && t.mapInfo[id].refCount == 1 && t.vvNew[b][i] == id
         else t.mapInfo.Keys == s.mapInfo.Keys - {id}
  {
    var a := s.mapInfo[id].service;
    var b := e.NewBucket(a, source);
    var i := e.Position(true, b, a);
    LimboInNoTable(e, s, {id}, 0, id);
    ZeroIsLimbo(e, s, {id}, id);
    if TakesSlot(s, id, b, i, now) {
      ClearNewOk(e, s, {id}, 0, b, i);
    } else {
      DeleteOk(e, s, {id}, 0, id);
    }
  }

  lemma FoundIsEntry(e: Env, s: State, net: NetAddr)
    requires Intact(e, s)
    ensures Find(s, net).Some? <==> exists x | x in s.mapInfo :: s.mapInfo[x].service.net == net
  {
    if net in s.mapAddr {
      var x := s.mapAddr[net];
      assert x in s.mapInfo && s.mapInfo[x].service.net == net;
    }
  }

  lemma EnteredIsFound(e: Env, t: State, id: int, a: Service, source: NetAddr)
    requires Intact(e, t)
    requires id in t.mapInfo ==>
      && t.mapInfo[id].service == a && t.mapInfo[id].refCount == 1 && !t.mapInfo[id].inTried
      && t.vvNew[e.NewBucket(a, source)][e.Position(true, e.NewBucket(a, source), a)] == id
    requires id !in t.mapInfo ==> forall x | x in t.mapInfo :: t.mapInfo[x].service.net != a.net
    ensures Find(t, a.net).Some? <==> id in t.mapInfo
    ensures id in t.mapInfo ==> NewBuckets(e, t.vvNew, a, id) == {e.NewBucket(a, source)}
  {
    if id in t.mapInfo {
      assert InfoOk(e, t, {}, id);
      OnlyOne(NewBuckets(e, t.vvNew, a, id), e.NewBucket(a, source));
    }
    FoundIsEntry(e, t, a.net);
  }

  lemma OnlyOne(bs: set<nat>, b: nat)
    requires b in bs && |bs| == 1
    ensures bs == {b}
  {
    assert |bs - {b}| == 0;
  }

  lemma AddKnownOutcome(e: Env, s: State, id: int, addr: Address, source: NetAddr, penalty: int, now: int, lucky: bool)
    requires Intact(e, s) && id in s.mapInfo
    ensures var info := Refreshed(s.mapInfo[id], addr, penalty, now);
      var t := WithInfo(s, id, info);
      && Intact(e, t) && HistoryKept(s, t)
      && (WantsMore(info, addr, lucky) ==>
          var u := Bucketed(e, t, id, source, now, {});
          && HistoryKept(s, u) && RestOfAdd(t, u, id)
          && id in u.mapInfo && (Dated(s) ==> Dated(u)))
  {
    var info := Refreshed(s.mapInfo[id], addr, penalty, now);
    RefreshedOk(e, s, id, addr, penalty, now);
    ZeroOrTried(e, s, id);
    var t := WithInfo(s, id, info);
    if WantsMore(info, addr, lucky) {
      BucketedRest(e, t, id, source, now, {});
      KnownRest(s, t, Bucketed(e, t, id, source, now, {}), id);
    }
  }

  lemma AddUnknownOutcome(e: Env, s: State, addr: Address, source: NetAddr, penalty: int, now: int)
    requires Intact(e, s) && Find(s, addr.service.net).None?
    ensures var t := Created(s, addr, source, penalty);
      && Consistent(e, t, {s.idCount}, 0)
      && var u := Bucketed(e, t, s.idCount, source, now, {s.idCount});
      && HistoryKept(s, u) && RestOfAdd(t, u, s.idCount) && (Dated(s) ==> Dated(u))
  {
    hide Consistent, Bucketed;
    UnknownSteps(e, s, addr.service, source);
    CreatedOk(e, s, addr, source, penalty);
    var t := Created(s, addr, source, penalty);
    BucketedRest(e, t, s.idCount, source, now, {s.idCount});
    UnknownRest(s, t, Bucketed(e, t, s.idCount, source, now, {s.idCount}));
  }

  lemma KnownRest(s: State, t: State, u: State, id: int)
    requires id in s.mapInfo && (s.mapInfo[id].inTried || s.mapInfo[id].refCount > 0) && id in t.mapInfo
    requires t.mapInfo == s.mapInfo[id := t.mapInfo[id]] && s.mapInfo[id].service == t.mapInfo[id].service
    requires s.mapInfo[id].inTried == t.mapInfo[id].inTried && s.mapInfo[id].refCount == t.mapInfo[id].refCount
    requires t.mapInfo[id].lastSuccess == s.mapInfo[id].lastSuccess && RestOfAdd(t, u, id)
    ensures HistoryKept(s, u) && id in u.mapInfo && (Dated(t) ==> Dated(u))
  {
  }

  lemma UnknownRest(s: State, t: State, u: State)
    requires s.idCount !in s.mapInfo && s.idCount in t.mapInfo
    requires t.mapInfo == s.mapInfo[s.idCount := t.mapInfo[s.idCount]] && RestOfAdd(t, u, s.idCount)
    ensures HistoryKept(s, u) && (Dated(t) ==> Dated(u))
  {
  }

  lemma ZeroOrTried(e: Env, s: State, id: int)
    requires Intact(e, s) && id in s.mapInfo
    ensures s.mapInfo[id].inTried || s.mapInfo[id].refCount > 0
  {
    assert InfoOk(e, s, {}, id);
  }

  // ----- Operations on one entry -----

  function Attempted(info: Info, lastGood: int, countFailure: bool, time: int): Info {
    var tried := info.(lastTry := time);
    if countFailure && info.lastCountAttempt < lastGood
    then tried.(lastCountAttempt := time, attempts := info.attempts + 1) else tried
  }

  function Connected(info: Info, time: int): Info {
    if time - info.time > 20 * 60 then info.(time := time) else info
  }

  datatype Touch = Attempt(countFailure: bool, time: int) | Connect(time: int) | SetServices(services: set<nat>)

  /** Attempt_, Connected_ and SetServices_. */
  function Touched(s: State, addr: Service, what: Touch): State {
    var found := FindExact(s, addr);
    if found.None? then s else
    var info := s.mapInfo[found.value];
    WithInfo(s, found.value,
      match what
      case Attempt(countFailure, time) => Attempted(info, s.lastGood, countFailure, time)
      case Connect(time) => Connected(info, time)
      case SetServices(services) => info.(services := services))
  }

  /** The times at which these leave the dates of a known entry in order. */
  predicate TouchTime(s: State, addr: Service, what: Touch) {
    FindExact(s, addr).None? || (what.Attempt? ==> what.time >= 0)
  }

  lemma TouchedKeepsInv(e: Env, s: State, addr: Service, what: Touch)
    requires Intact(e, s)
    ensures Intact(e, Touched(s, addr, what))
    ensures Dated(s) ==> (Dated(Touched(s, addr, what)) <==> TouchTime(s, addr, what))
  {
    var found := FindExact(s, addr);
    if found.Some? {
      assert found.value in Touched(s, addr, what).mapInfo;
      assert InfoOk(e, s, {}, found.value);
      InfoUpdated(e, s, found.value, Touched(s, addr, what).mapInfo[found.value], {}, 0);
    }
  }

  // ----- Collisions -----

  function Erased(s: State, id: int): State {
    s.(collisions := s.collisions - {id})
  }

  lemma ErasedKeepsInv(e: Env, s: State, id: int)
    requires Intact(e, s)
    ensures Intact(e, Erased(s, id))
    ensures Dated(s) ==> Dated(Erased(s, id))
  {
    var t := Erased(s, id);
    assert t.collisions <= s.collisions;
    SubsetSize(t.collisions, s.collisions);
    assert TriedIds(t) == TriedIds(s) && NewIds(t) == NewIds(s);
    forall x | x in t.mapInfo ensures InfoOk(e, t, {}, x) { assert InfoOk(e, s, {}, x); }
  }

  lemma SubsetSize(a: set<int>, b: set<int>)
    requires a <= b
    ensures |a| <= |b|
  {
    assert b == a + (b - a);
  }

  /** Five readings of the adjusted time. */
  predicate Readings(clock: seq<int>) {
    |clock| == 5 && forall j | 0 <= j < 5 :: clock[j] > 0
  }

  /** One turn of the loop in ResolveCollisions_; clock holds its successive readings of the time. */
  ghost function ResolveOne(e: Env, s: State, id: int, clock: seq<int>): State
    requires Intact(e, s) && Readings(clock)
  {
    if id !in s.mapInfo || !e.isValid(s.mapInfo[id].service.net) then Erased(s, id) else
    var info := s.mapInfo[id];
    var slot := TriedSlot(e, s, info.service);
    if slot == -1 then Erased(Good(e, s, info.service, false, clock[4]), id) else
    var old' := s.mapInfo[slot];
    if clock[0] - old'.lastSuccess < REPLACEMENT_HOURS * 60 * 60 then Erased(s, id)
    else if clock[1] - old'.lastTry < REPLACEMENT_HOURS * 60 * 60 then
      if clock[2] - old'.lastTry > 60 then Erased(Good(e, s, info.service, false, clock[4]), id) else s
    else if clock[3] - info.lastSuccess > TEST_WINDOW then Erased(Good(e, s, info.service, false, clock[4]), id)
    else s
  }

  lemma ResolveOneKeepsInv(e: Env, s: State, id: int, clock: seq<int>)
    requires Intact(e, s) && Readings(clock)
    ensures Intact(e, ResolveOne(e, s, id, clock))
    ensures Dated(s) ==> Dated(ResolveOne(e, s, id, clock))
  {
    hide Intact, Good;
    ErasedKeepsInv(e, s, id);
    if id in s.mapInfo {
      var good := Good(e, s, s.mapInfo[id].service, false, clock[4]);
      GoodKeepsInv(e, s, s.mapInfo[id].service, false, clock[4]);
      ErasedKeepsInv(e, good, id);
    }
  }

  /** Several turns in a row. */
  ghost function ResolveAll(e: Env, s: State, ids: seq<int>, clocks: seq<seq<int>>): (t: State)
    requires Intact(e, s) && |ids| == |clocks| && forall j | 0 <= j < |clocks| :: Readings(clocks[j])
    ensures Intact(e, t) && (Dated(s) ==> Dated(t))
    decreases |ids|
  {
    if ids == [] then s else
    var n := |ids| - 1;
    var t := ResolveAll(e, s, ids[..n], clocks[..n]);
    ResolveOneKeepsInv(e, t, ids[n], clocks[n]);
    ResolveOne(e, t, ids[n], clocks[n])
  }

  /** The entry a pending collision would evict exists: mapInfo is never indexed with -1. */
  lemma CollisionHasOpponent(e: Env, s: State, id: int)
    requires Intact(e, s) && id in s.collisions && id in s.mapInfo
    ensures TriedSlot(e, s, s.mapInfo[id].service) in s.mapInfo
    ensures s.mapInfo[TriedSlot(e, s, s.mapInfo[id].service)].inTried
  {
    assert TriedSlot(e, s, s.mapInfo[id].service) != -1;
  }

  // ----- Runs -----

  datatype Op =
    | OpAdd(address: Address, source: NetAddr, timePenalty: int, now: int, lucky: bool)
    | OpGood(addr: Service, testBeforeEvict: bool, time: int)
    | OpTouch(addr: Service, what: Touch)
    | OpSwap(p: nat, q: nat)
    | OpResolve(id: int, clock: seq<int>)
    | OpForget(id: int)

  /** Calls made at times that keep the dates; a swap, as GetAddr_ makes them, is within vRandom. */
  ghost predicate Allowed(e: Env, s: State, op: Op)
    requires Intact(e, s)
  {
    match op
    case OpAdd(_, _, _, _, _) => true
    case OpGood(addr, test, time) => GoodTime(e, s, addr, test, time)
    case OpTouch(addr, what) => TouchTime(s, addr, what)
    case OpSwap(p, q) => p < |s.vRandom| && q < |s.vRandom|
    case OpResolve(_, clock) => Readings(clock)
    case OpForget(id) => id !in s.mapInfo
  }

  ghost function Step(e: Env, s: State, op: Op): State
    requires Inv(e, s) && Allowed(e, s, op)
  {
    match op
    case OpAdd(address, source, penalty, now, lucky) => Add(e, s, address, source, penalty, now, lucky).0
    case OpGood(addr, test, time) => Good(e, s, addr, test, time)
    case OpTouch(addr, what) => Touched(s, addr, what)
    case OpSwap(p, q) => SwapRandomOk(s, p, q); SwapRandom(s, p, q)
    case OpResolve(id, clock) => ResolveOne(e, s, id, clock)
    case OpForget(id) => Erased(s, id)
  }

  lemma StepKeepsInv(e: Env, s: State, op: Op)
    requires Inv(e, s) && Allowed(e, s, op)
    ensures Inv(e, Step(e, s, op))
  {
    match op
    case OpAdd(address, source, penalty, now, lucky) => AddKeepsInv(e, s, address, source, penalty, now, lucky);
    case OpGood(addr, test, time) => GoodKeepsInv(e, s, addr, test, time);
    case OpTouch(addr, what) => TouchedKeepsInv(e, s, addr, what);
    case OpSwap(p, q) => SwapKeepsInv(e, s, p, q);
    case OpResolve(id, clock) => ResolveOneKeepsInv(e, s, id, clock);
    case OpForget(id) => ErasedKeepsInv(e, s, id);
  }

  lemma SwapKeepsInv(e: Env, s: State, p: nat, q: nat)
    requires Intact(e, s) && p < |s.vRandom| && q < |s.vRandom|
    ensures MaySwap(s, p, q) && Intact(e, SwapRandom(s, p, q))
    ensures Dated(s) ==> Dated(SwapRandom(s, p, q))
  {
    SwapRandomOk(s, p, q);
    var t := SwapRandom(s, p, q);
    ConsistentUpToPositions(e, s, t, {}, 0);
    forall x | x in t.mapInfo ensures t.mapInfo[x].service == s.mapInfo[x].service {
      assert SameInfo(s.mapInfo[x], t.mapInfo[x]);
    }
    CollisionsKept(e, s, t);
  }

  /** Several swaps in a row. */
  ghost function SwapAll(e: Env, s: State, swaps: seq<(nat, nat)>): (t: State)
    requires Intact(e, s) && forall j | 0 <= j < |swaps| :: swaps[j].0 < |s.vRandom| && swaps[j].1 < |s.vRandom|
    ensures Intact(e, t) && (Dated(s) ==> Dated(t)) && |t.vRandom| == |s.vRandom|
    ensures t == s.(mapInfo := t.mapInfo, vRandom := t.vRandom)
    decreases |swaps|
  {
    if swaps == [] then s else
    var n := |swaps| - 1;
    var t := SwapAll(e, s, swaps[..n]);
    SwappedOnce(e, s, t, swaps[n].0, swaps[n].1);
    SwapRandom(t, swaps[n].0, swaps[n].1)
  }

  lemma SwappedOnce(e: Env, s: State, t: State, p: nat, q: nat)
    requires Intact(e, t) && (Dated(s) ==> Dated(t)) && p < |t.vRandom| == |s.vRandom| && q < |t.vRandom|
    requires t == s.(mapInfo := t.mapInfo, vRandom := t.vRandom)
    ensures MaySwap(t, p, q)
    ensures var u := SwapRandom(t, p, q);
      && Intact(e, u) && (Dated(s) ==> Dated(u)) && |u.vRandom| == |s.vRandom|
      && u == s.(mapInfo := u.mapInfo, vRandom := u.vRandom)
  {
    hide Intact, Dated;
    SwapKeepsInv(e, t, p, q);
  }

  lemma InitialOk(e: Env)
    ensures Inv(e, Initial())
  {
    var s := Initial();
    assert TriedIds(s) == {} && NewIds(s) == {};
  }

  /** The state after a run from the empty manager; None when a call was not allowed. */
  ghost function Run(e: Env, ops: seq<Op>): (s: Option<State>)
    ensures s.Some? ==> Inv(e, s.value)
    decreases |ops|
  {
    if ops == [] then InitialOk(e); Some(Initial()) else
    var op := ops[|ops| - 1];
    match Run(e, ops[..|ops| - 1])
    case None => None
    case Some(before) =>
      if !Allowed(e, before, op) then None else
      StepKeepsInv(e, before, op);
      Some(Step(e, before, op))
  }
}
