/** What the operations of the address manager decide: who gets a place, who keeps it and who waits. */
module AddrManOutcomes {
  import opened Wrappers
  import opened AddrManSpec
  import opened AddrManLemmas
  import opened AddrManOps

  // ----- Lookup -----

  /** An address and port are found exactly when an entry has them, and then that entry is. */
  lemma FindExactIff(e: Env, s: State, addr: Service)
    requires Intact(e, s)
    ensures FindExact(s, addr).Some? <==> exists x | x in s.mapInfo :: s.mapInfo[x].service == addr
    ensures FindExact(s, addr).Some? ==>
      FindExact(s, addr).value in s.mapInfo && s.mapInfo[FindExact(s, addr).value].service == addr
  {
    forall x | x in s.mapInfo && s.mapInfo[x].service == addr ensures FindExact(s, addr) == Some(x) {
      assert s.mapAddr[s.mapInfo[x].service.net] == x;
    }
    if FindExact(s, addr).Some? {
      var x := FindExact(s, addr).value;
      assert x in s.mapInfo && s.mapInfo[x].service == addr;
    }
  }

  // ----- Good_ -----

  /** The entry after a success, in full. */
  function Reached(s: State, id: int, time: int): State
    requires id in s.mapInfo
  {
    s.(lastGood := time,
       mapInfo := s.mapInfo[id := s.mapInfo[id].(lastSuccess := time, lastTry := time, attempts := 0)])
  }

  /**
    What Good_ decides. A tried entry stays where it is; with test-before-evict an entry whose
    tried slot is taken waits, if fewer than ten others do; any other entry gets its tried slot.
  */
  lemma GoodOutcome(e: Env, s: State, addr: Service, testBeforeEvict: bool, time: int)
    requires Intact(e, s)
    ensures var t := Good(e, s, addr, testBeforeEvict, time);
      var found := FindExact(s, addr);
      if found.None? then t == s.(lastGood := time) else
      var id := found.value;
      var reached := Reached(s, id, time);
      && Shaped(s.vvTried, TRIED_BUCKET_COUNT) && Shaped(s.vvNew, NEW_BUCKET_COUNT)
      && if s.mapInfo[id].inTried then t == reached
         else if testBeforeEvict && TriedSlot(e, s, addr) != -1 then
           t == reached.(collisions := if |s.collisions| < 10 then s.collisions + {id} else s.collisions)
         else Promoted(e, reached, t, id) && TriedSlot(e, t, addr) == id
  {
    var found := FindExact(s, addr);
    if found.Some? && !s.mapInfo[found.value].inTried {
      var id := found.value;
      LastGoodSet(e, s, time);
      InfoUpdated(e, s.(lastGood := time), id, Marked(s.mapInfo[id], time), {}, 0);
      var reached := Reached(s, id, time);
      assert reached == WithInfo(s.(lastGood := time), id, Marked(s.mapInfo[id], time));
      GoodTail(e, reached, id, testBeforeEvict);
      hide Consistent, CollisionsOk, MakeTried, Promoted;
      MakeTriedPromotes(e, reached, id);
      PromotedSlot(e, reached, MakeTried(e, reached, id), id);
    }
  }

  lemma PromotedSlot(e: Env, s: State, t: State, id: int)
    requires Shaped(s.vvTried, TRIED_BUCKET_COUNT) && Shaped(s.vvNew, NEW_BUCKET_COUNT) && id in s.mapInfo
    requires Promoted(e, s, t, id)
    ensures Shaped(t.vvTried, TRIED_BUCKET_COUNT) && TriedSlot(e, t, s.mapInfo[id].service) == id
  {
  }

  /** An entry that loses its tried slot gets one reference, in the new bucket of its own source. */
  lemma EvictedGoesHome(e: Env, s: State, id: int)
    requires Consistent(e, s, {}, 0) && id in s.mapInfo && !s.mapInfo[id].inTried
    requires TriedSlot(e, s, s.mapInfo[id].service) != -1
    ensures var evicted := TriedSlot(e, s, s.mapInfo[id].service);
      var t := MakeTried(e, s, id);
      && evicted in s.mapInfo && evicted in t.mapInfo && t.mapInfo[evicted].refCount == 1
      && Shaped(t.vvNew, NEW_BUCKET_COUNT)
      && NewBuckets(e, t.vvNew, s.mapInfo[evicted].service, evicted) ==
         {e.NewBucket(s.mapInfo[evicted].service, s.mapInfo[evicted].source)}
  {
    var a := s.mapInfo[id].service;
    var b, i := e.TriedBucket(a), e.Position(false, e.TriedBucket(a), a);
    assert Shaped(s.vvNew, NEW_BUCKET_COUNT) && Shaped(s.vvTried, TRIED_BUCKET_COUNT);
    hide Consistent, InfoOk, TablesOk, IndexesOk;
    DetachedOk(e, s, id);
    var t := Detached(e, s, id);
    var evicted := t.vvTried[b][i];
    EvictedOk(e, t, {id}, 1, b, i);
    var v := Evicted(t, b, i);
    assert {id} + {evicted} == {id, evicted};
    var b' := e.NewBucket(s.mapInfo[evicted].service, s.mapInfo[evicted].source);
    var i' := HomePosition(e, v.mapInfo[evicted]);
    LimboSurvives(e, v, {id, evicted}, 2, b', i', evicted);
    ReinstatedOk(e, v, evicted, {id, evicted}, 2);
    ReinstatedRest(e, v, evicted, {id, evicted}, 2, id);
    ReinstatedRest(e, v, evicted, {id, evicted}, 2, evicted);
    var r := MakeTried(e, s, id);
    assert r.vvNew[b'][i'] == evicted && r.mapInfo[evicted].refCount == 1;
    MakeTriedOk(e, s, id);
    HomeOnly(e, r, evicted, b');
  }

  lemma HomeOnly(e: Env, t: State, x: int, b: nat)
    requires Consistent(e, t, {}, 0) && x in t.mapInfo && t.mapInfo[x].refCount == 1 && b < NEW_BUCKET_COUNT
    requires t.vvNew[b][e.Position(true, b, t.mapInfo[x].service)] == x
    ensures NewBuckets(e, t.vvNew, t.mapInfo[x].service, x) == {b}
  {
    assert InfoOk(e, t, {}, x);
    OnlyOne(NewBuckets(e, t.vvNew, t.mapInfo[x].service, x), b);
  }

  // ----- Test before evict -----

  /** The readings of the time against the two entries: the waiting one replaces its opponent. */
  predicate Replaces(info: Info, opponent: Info, clock: seq<int>)
    requires |clock| == 5
  {
    && clock[0] - opponent.lastSuccess >= 14400
    && if clock[1] - opponent.lastTry < 14400 then clock[2] - opponent.lastTry > 60
       else clock[3] - info.lastSuccess > 2400
  }

  /** They leave the decision for later. */
  predicate Waits(info: Info, opponent: Info, clock: seq<int>)
    requires |clock| == 5
  {
    && clock[0] - opponent.lastSuccess >= 14400
    && if clock[1] - opponent.lastTry < 14400 then clock[2] - opponent.lastTry <= 60
       else clock[3] - info.lastSuccess <= 2400
  }

  ghost predicate Valid(e: Env, s: State, id: int) {
    id in s.mapInfo && e.isValid(s.mapInfo[id].service.net)
  }

  /**
    What one turn of ResolveCollisions_ decides about a pending entry. An entry that is gone or
    invalid, and one whose opponent was reached within four hours, is no longer pending and
    nothing else changes. Otherwise it waits, and nothing changes at all, or it takes the
    tried slot and its opponent goes back to the new table.
  */
  lemma ResolveOutcome(e: Env, s: State, id: int, clock: seq<int>)
    requires Intact(e, s) && Readings(clock) && id in s.collisions
    ensures var t := ResolveOne(e, s, id, clock);
      if !Valid(e, s, id) then t == s.(collisions := s.collisions - {id}) else
      var info := s.mapInfo[id];
      && Shaped(s.vvTried, TRIED_BUCKET_COUNT)
      && var slot := TriedSlot(e, s, info.service);
      && slot in s.mapInfo && s.mapInfo[slot].inTried
      && var opponent := s.mapInfo[slot];
      && (clock[0] - opponent.lastSuccess < 14400 ==> t == s.(collisions := s.collisions - {id}))
      && (t == s <==> Waits(info, opponent, clock))
      && (Replaces(info, opponent, clock) ==> Replaced(e, s, t, id, slot, clock[4]))
      && Shaped(t.vvTried, TRIED_BUCKET_COUNT)
      && (TriedSlot(e, t, info.service) == id <==> slot == id || Replaces(info, opponent, clock))
  {
    hide Intact, Good;
    if Valid(e, s, id) {
      CollisionHasOpponent(e, s, id);
      ExactlyThis(e, s, id);
      ExactlyThis(e, s, TriedSlot(e, s, s.mapInfo[id].service));
      GoodReplaces(e, s, id, clock[4]);
    }
  }

  /** The entry is in its tried slot with the time of its success, and the one that was there is a new one. */
  ghost predicate Replaced(e: Env, s: State, t: State, id: int, slot: int, time: int)
    requires id in s.mapInfo
  {
    && t.collisions == s.collisions - {id} && t.lastGood == time
    && id in t.mapInfo && t.mapInfo[id].inTried && t.mapInfo[id].lastSuccess == time
    && t.mapInfo[id].service == s.mapInfo[id].service
    && (slot != id ==> slot in t.mapInfo && !t.mapInfo[slot].inTried)
    && Shaped(t.vvTried, TRIED_BUCKET_COUNT) && TriedSlot(e, t, s.mapInfo[id].service) == id
  }

  lemma ExactlyThis(e: Env, s: State, id: int)
    requires Intact(e, s) && id in s.mapInfo
    ensures FindExact(s, s.mapInfo[id].service) == Some(id)
    ensures Shaped(s.vvTried, TRIED_BUCKET_COUNT) && Shaped(s.vvNew, NEW_BUCKET_COUNT)
    ensures id >= 0 && (s.mapInfo[id].inTried ==> TriedSlot(e, s, s.mapInfo[id].service) == id)
  {
    assert InfoOk(e, s, {}, id);
  }

  lemma GoodReplaces(e: Env, s: State, id: int, time: int)
    requires Intact(e, s) && id in s.mapInfo
    requires Shaped(s.vvTried, TRIED_BUCKET_COUNT) && TriedSlot(e, s, s.mapInfo[id].service) in s.mapInfo
    ensures Replaced(e, s, Erased(Good(e, s, s.mapInfo[id].service, false, time), id), id,
                     TriedSlot(e, s, s.mapInfo[id].service), time)
  {
    hide Intact, Good, Promoted;
    var a := s.mapInfo[id].service;
    var t := Good(e, s, a, false, time);
    ExactlyThis(e, s, id);
    GoodOutcome(e, s, a, false, time);
    if !s.mapInfo[id].inTried {
      ReplacedByPromotion(e, s, t, id, time);
    }
  }

  lemma ReplacedByPromotion(e: Env, s: State, t: State, id: int, time: int)
    requires Shaped(s.vvTried, TRIED_BUCKET_COUNT) && Shaped(s.vvNew, NEW_BUCKET_COUNT) && id in s.mapInfo
    requires Promoted(e, Reached(s, id, time), t, id) && TriedSlot(e, s, s.mapInfo[id].service) in s.mapInfo
    ensures Replaced(e, s, Erased(t, id), id, TriedSlot(e, s, s.mapInfo[id].service), time)
  {
    var reached, slot := Reached(s, id, time), TriedSlot(e, s, s.mapInfo[id].service);
    PromotedSlot(e, reached, t, id);
    assert PromotedEntry(e, reached, t, id, slot, id);
    assert PromotedEntry(e, reached, t, id, slot, slot);
  }

  /** A tried entry that stays one, with the time of its last success. */
  ghost predicate StaysTried(s: State, t: State, x: int)
    requires x in s.mapInfo
  {
    x in t.mapInfo && t.mapInfo[x].inTried && t.mapInfo[x].lastSuccess == s.mapInfo[x].lastSuccess
  }

  lemma PromotionSpares(e: Env, s: State, t: State, id: int, x: int)
    requires Shaped(s.vvTried, TRIED_BUCKET_COUNT) && Shaped(s.vvNew, NEW_BUCKET_COUNT) && id in s.mapInfo
    requires Promoted(e, s, t, id) && x in s.mapInfo && x != id && x != TriedSlot(e, s, s.mapInfo[id].service)
    requires s.mapInfo[x].inTried && s.mapInfo[x].refCount == 0
    ensures StaysTried(s, t, x)
  {
    assert PromotedEntry(e, s, t, id, TriedSlot(e, s, s.mapInfo[id].service), x);
  }

  lemma NoReference(e: Env, s: State, x: int)
    requires Intact(e, s) && x in s.mapInfo && s.mapInfo[x].inTried
    ensures s.mapInfo[x].refCount == 0 && x != -1
  {
    assert InfoOk(e, s, {}, x);
  }

  /** A tried entry whose last success lies less than four hours back at every turn. */
  predicate JustReached(info: Info, clocks: seq<seq<int>>) {
    info.inTried && forall j | 0 <= j < |clocks| :: |clocks[j]| > 0 && clocks[j][0] - info.lastSuccess < 14400
  }

  lemma TurnSpares(e: Env, s: State, id: int, clock: seq<int>, x: int)
    requires Intact(e, s) && Readings(clock)
    requires x in s.mapInfo && s.mapInfo[x].inTried && clock[0] - s.mapInfo[x].lastSuccess < 14400
    ensures StaysTried(s, ResolveOne(e, s, id, clock), x)
  {
    hide Intact, Good, Promoted;
    if id in s.mapInfo {
      ExactlyThis(e, s, id);
      NoReference(e, s, x);
      var a := s.mapInfo[id].service;
      GoodOutcome(e, s, a, false, clock[4]);
      if !s.mapInfo[id].inTried && TriedSlot(e, s, a) != x {
        PromotionSpares(e, Reached(s, id, clock[4]), Good(e, s, a, false, clock[4]), id, x);
      }
    }
  }

  /**
    Main theorem. However many collisions are decided, a tried entry that was reached within
    the last four hours by every reading of the time keeps its place.
  */
  lemma {:induction false} RecentlyReachedStays(e: Env, s: State, ids: seq<int>, clocks: seq<seq<int>>, x: int)
    requires Intact(e, s) && |ids| == |clocks|
    requires forall j | 0 <= j < |clocks| :: Readings(clocks[j])
    requires x in s.mapInfo && JustReached(s.mapInfo[x], clocks)
    ensures StaysTried(s, ResolveAll(e, s, ids, clocks), x)
    decreases |ids|
  {
    hide Intact, ResolveOne;
    if ids != [] {
      var n := |ids| - 1;
      RecentlyReachedStays(e, s, ids[..n], clocks[..n], x);
      TurnSpares(e, ResolveAll(e, s, ids[..n], clocks[..n]), ids[n], clocks[n], x);
    }
  }

  // ----- Add_ for an address that is known -----

  /** The time of an entry after its address was heard of again: never back, and only by an hour or a day at least. */
  function HeardAt(known: int, heard: int, penalty: int, now: int): int {
    if heard == 0 then known
    else if known == 0 || known + penalty + (if now - heard < 86400 then 3600 else 86400) < heard
    then (if heard < penalty then 0 else heard - penalty)
    else known
  }

  /** A known entry that is not tried gets a further reference for news of it, by chance and up to eight. */
  predicate Gains(e: Env, s: State, id: int, addr: Address, source: NetAddr, time: int, now: int, lucky: bool)
    requires Shaped(s.vvNew, NEW_BUCKET_COUNT) && id in s.mapInfo
  {
    var a := s.mapInfo[id].service;
    var b := e.NewBucket(a, source);
    var slot := s.vvNew[b][e.Position(true, b, a)];
    && addr.time != 0 && (time == 0 || addr.time > time)
    && !s.mapInfo[id].inTried && s.mapInfo[id].refCount < 8 && lucky
    && slot != id && (slot == -1 || (slot in s.mapInfo && s.mapInfo[slot].IsTerrible(now)))
  }

  /** What Add_ does for a known address. */
  lemma KnownOutcome(e: Env, s: State, addr: Address, source: NetAddr, timePenalty: int, now: int, lucky: bool)
    requires Intact(e, s) && e.isRoutable(addr.service.net) && Find(s, addr.service.net).Some?
    ensures var t := Add(e, s, addr, source, timePenalty, now, lucky).0;
      var id := Find(s, addr.service.net).value;
      var info := s.mapInfo[id];
      var time := HeardAt(info.time, addr.time, if addr.service.net == source then 0 else timePenalty, now);
      var b := e.NewBucket(info.service, source);
      && Shaped(s.vvNew, NEW_BUCKET_COUNT) && Shaped(t.vvNew, NEW_BUCKET_COUNT)
      && id in t.mapInfo && t.mapInfo[id].time == time && t.mapInfo[id].services == info.services + addr.services
      && if Gains(e, s, id, addr, source, time, now, lucky) then
           NewBuckets(e, t.vvNew, info.service, id) == NewBuckets(e, s.vvNew, info.service, id) + {b}
         else t == s.(mapInfo := s.mapInfo[id := info.(time := time, services := info.services + addr.services)])
  {
    var penalty := if addr.service.net == source then 0 else timePenalty;
    var id := Find(s, addr.service.net).value;
    RefreshedOk(e, s, id, addr, penalty, now);
    var info := Refreshed(s.mapInfo[id], addr, penalty, now);
    ZeroOrTried(e, s, id);
    AddShape(e, s, id);
    if WantsMore(info, addr, lucky) {
      KnownBucketed(e, WithInfo(s, id, info), id, source, now);
    }
  }

  lemma AddShape(e: Env, s: State, id: int)
    requires Intact(e, s) && id in s.mapInfo
    ensures Shaped(s.vvNew, NEW_BUCKET_COUNT) && s.mapInfo[id].refCount <= 8
  {
    assert InfoOk(e, s, {}, id);
  }

  lemma KnownBucketed(e: Env, s: State, id: int, source: NetAddr, now: int)
    requires Intact(e, s) && id in s.mapInfo && !s.mapInfo[id].inTried
    ensures var t := Bucketed(e, s, id, source, now, {});
      var info := s.mapInfo[id];
      var b := e.NewBucket(info.service, source);
      && Shaped(s.vvNew, NEW_BUCKET_COUNT) && Shaped(t.vvNew, NEW_BUCKET_COUNT)
      && var slot := s.vvNew[b][e.Position(true, b, info.service)];
      && (slot == -1 || slot in s.mapInfo)
      && if slot != id && (slot == -1 || s.mapInfo[slot].IsTerrible(now)) then
           && id in t.mapInfo && t.mapInfo[id].time == info.time && t.mapInfo[id].services == info.services
           && NewBuckets(e, t.vvNew, info.service, id) == NewBuckets(e, s.vvNew, info.service, id) + {b}
         else t == s
  {
    var a := s.mapInfo[id].service;
    var b := e.NewBucket(a, source);
    var i := e.Position(true, b, a);
    SlotHolds(e, s, id, b, i);
    ZeroOrTried(e, s, id);
    hide Consistent, ClearNew, MayClearNew, CollisionsOk;
    if s.vvNew[b][i] != id && TakesSlot(s, id, b, i, now) {
      ClearNewOk(e, s, {}, 0, b, i);
      ReferenceJoins(e, s, ClearNew(s, b, i), b, i, id);
    }
  }

  lemma SlotHolds(e: Env, s: State, id: int, b: nat, i: nat)
    requires Intact(e, s) && id in s.mapInfo && b < NEW_BUCKET_COUNT && i < BUCKET_SIZE
    ensures Shaped(s.vvNew, NEW_BUCKET_COUNT) && id >= 0 && (s.vvNew[b][i] == -1 || s.vvNew[b][i] in s.mapInfo)
  {
  }

  lemma ReferenceJoins(e: Env, s: State, c: State, b: nat, i: nat, id: int)
    requires Shaped(s.vvNew, NEW_BUCKET_COUNT) && b < NEW_BUCKET_COUNT && i < BUCKET_SIZE && Cleared(s, c, b, i)
    requires id in s.mapInfo && s.vvNew[b][i] != id && i == e.Position(true, b, s.mapInfo[id].service) && id >= 0
    ensures Shaped(c.vvNew, NEW_BUCKET_COUNT) && id in c.mapInfo
    ensures var t := AddReference(c, b, i, id);
      && Shaped(t.vvNew, NEW_BUCKET_COUNT)
      && t.mapInfo[id].time == s.mapInfo[id].time && t.mapInfo[id].services == s.mapInfo[id].services
      && NewBuckets(e, t.vvNew, s.mapInfo[id].service, id) == NewBuckets(e, s.vvNew, s.mapInfo[id].service, id) + {b}
  {
    var a := s.mapInfo[id].service;
    NewBucketsPut(e, s.vvNew, b, i, -1, a, id);
    NewBucketsPut(e, c.vvNew, b, i, id, a, id);
  }

  // ----- Attempt_, Connected_ and SetServices_ -----

  /** Only the entry of exactly this address and port changes, and only in the fields concerned. */
  lemma TouchOutcome(e: Env, s: State, addr: Service, what: Touch)
    requires Intact(e, s)
    ensures var t := Touched(s, addr, what);
      var found := FindExact(s, addr);
      if found.None? then t == s else
      var before := s.mapInfo[found.value];
      && found.value in t.mapInfo
      && var after := t.mapInfo[found.value];
      && t == s.(mapInfo := s.mapInfo[found.value := after])
      && match what
         case Attempt(countFailure, time) =>
           && after == before.(lastTry := time, attempts := after.attempts, lastCountAttempt := after.lastCountAttempt)
           && if countFailure && before.lastCountAttempt < s.lastGood
              then after.attempts == before.attempts + 1 && after.lastCountAttempt == time
              else after.attempts == before.attempts && after.lastCountAttempt == before.lastCountAttempt
         case Connect(time) =>
           && after == before.(time := after.time)
           && time <= after.time + 1200 && (after.time == before.time || after.time == time > before.time + 1200)
         case SetServices(services) => after == before.(services := services)
  {
  }

  function TouchAll(s: State, touches: seq<(Service, Touch)>): State
    decreases |touches|
  {
    if touches == [] then s else TouchAll(Touched(s, touches[0].0, touches[0].1), touches[1..])
  }

  ghost predicate Counted(touches: seq<(Service, Touch)>, a: Service) {
    exists j | 0 <= j < |touches| :: touches[j].0 == a && touches[j].1.Attempt? && touches[j].1.countFailure
  }

  /**
    However many attempts fail between two successes anywhere, they count for one: the count
    rises by one if there is any and none was counted since the last success, else not at all.
  */
  lemma {:induction false} FailuresCountOnce(e: Env, s: State, touches: seq<(Service, Touch)>, x: int)
    requires Intact(e, s) && x in s.mapInfo
    requires forall j | 0 <= j < |touches| :: touches[j].1.Attempt? ==> touches[j].1.time >= s.lastGood
    ensures var t := TouchAll(s, touches);
      && x in t.mapInfo
      && t.mapInfo[x].attempts == s.mapInfo[x].attempts +
           if s.mapInfo[x].lastCountAttempt < s.lastGood && Counted(touches, s.mapInfo[x].service) then 1 else 0
    decreases |touches|
  {
    if touches != [] {
      hide Intact;
      var s' := Touched(s, touches[0].0, touches[0].1);
      TouchOutcome(e, s, touches[0].0, touches[0].1);
      TouchedKeepsInv(e, s, touches[0].0, touches[0].1);
      ExactlyThis(e, s, x);
      FindExactIff(e, s, touches[0].0);
      FailuresCountOnce(e, s', touches[1..], x);
      CountedRest(touches, s.mapInfo[x].service);
    }
  }

  lemma CountedRest(touches: seq<(Service, Touch)>, a: Service)
    requires touches != []
    ensures Counted(touches, a) <==>
      (touches[0].0 == a && touches[0].1.Attempt? && touches[0].1.countFailure) || Counted(touches[1..], a)
  {
    if j :| 0 <= j < |touches| && touches[j].0 == a && touches[j].1.Attempt? && touches[j].1.countFailure {
      if j > 0 { assert touches[1..][j - 1] == touches[j]; }
    }
    var rest := touches[1..];
    if j :| 0 <= j < |rest| && rest[j].0 == a && rest[j].1.Attempt? && rest[j].1.countFailure {
      assert touches[j + 1] == rest[j];
    }
  }

  // ----- Buckets -----

  /** The addresses of one group share eight tried buckets, however many there are. */
  lemma TriedSpread(e: Env, group: seq<int>, addrs: set<Service>)
    requires forall a | a in addrs :: e.group(a.net) == group
    ensures |set a | a in addrs :: e.TriedBucket(a)| <= 8
  {
    var f := (k: nat) => e.cheapHash([[e.nKey], group, [k]]) % 256;
    forall a | a in addrs ensures e.TriedBucket(a) in Image(f, 8) {
      var k := e.cheapHash([[e.nKey], e.serviceKey(a)]) % 8;
      InImage(f, 8, k);
      assert e.TriedBucket(a) == f(k);
    }
    SubsetOfImage(f, 8, set a | a in addrs :: e.TriedBucket(a));
  }

  /** What sources of one group can say about all addresses ends up in sixty-four new buckets. */
  lemma NewSpread(e: Env, group: seq<int>, heard: set<(Service, NetAddr)>)
    requires forall p | p in heard :: e.group(p.1) == group
    ensures |set p | p in heard :: e.NewBucket(p.0, p.1)| <= 64
  {
    var f := (k: nat) => e.cheapHash([[e.nKey], group, [k]]) % 1024;
    forall p | p in heard ensures e.NewBucket(p.0, p.1) in Image(f, 64) {
      var k := e.cheapHash([[e.nKey], e.group(p.0.net), e.group(p.1)]) % 64;
      InImage(f, 64, k);
      assert e.NewBucket(p.0, p.1) == f(k);
    }
    SubsetOfImage(f, 64, set p | p in heard :: e.NewBucket(p.0, p.1));
  }

  ghost function Image(f: nat -> nat, n: nat): set<nat> {
    set k: nat | k < n :: f(k)
  }

  lemma InImage(f: nat -> nat, n: nat, k: nat)
    requires k < n
    ensures f(k) in Image(f, n)
  {
  }

  lemma {:induction false} ImageSize(f: nat -> nat, n: nat)
    ensures |Image(f, n)| <= n
  {
    if n > 0 {
      ImageSize(f, n - 1);
      assert Image(f, n) == Image(f, n - 1) + {f(n - 1)};
    }
  }

  lemma SubsetOfImage(f: nat -> nat, n: nat, bs: set<nat>)
    requires bs <= Image(f, n)
    ensures |bs| <= n
  {
    ImageSize(f, n);
    assert Image(f, n) == bs + (Image(f, n) - bs);
  }

  // ----- Addresses not worth passing on -----

  /**
    An address is worth keeping exactly when it was tried within the last minute, or was seen
    within thirty days and not in the future, and was reached or tried less than three times,
    and was reached within a week or failed less than ten times.
  */
  lemma WorthKeepingIff(info: Info, now: int)
    ensures !info.IsTerrible(now) <==>
      || (info.lastTry != 0 && now <= info.lastTry + 60)
      || (&& info.time != 0 && now - 2592000 <= info.time <= now + 600
          && (info.lastSuccess != 0 || info.attempts < 3)
          && (now <= info.lastSuccess + 604800 || info.attempts < 10))
  {
  }
}
