/**
  The address manager's tables as a value, and what each operation does to them.

  Hashing is a parameter: Env holds the keyed hash and the address predicates, and the
  bucket functions reduce its results the way the code does.
*/
module AddrManSpec {
  import opened Wrappers

  const TRIED_BUCKET_COUNT: nat := 256
  const NEW_BUCKET_COUNT: nat := 1024
  const BUCKET_SIZE: nat := 64
  const TRIED_BUCKETS_PER_GROUP: nat := 8
  const NEW_BUCKETS_PER_SOURCE_GROUP: nat := 64
  const NEW_BUCKETS_PER_ADDRESS: nat := 8
  const SET_TRIED_COLLISION_SIZE: nat := 10
  const HORIZON_DAYS: nat := 30
  const RETRIES: nat := 3
  const MAX_FAILURES: nat := 10
  const MIN_FAIL_DAYS: nat := 7
  const REPLACEMENT_HOURS: nat := 4
  const TEST_WINDOW: nat := 40 * 60

  datatype NetAddr = NetAddr(network: nat, bytes: seq<nat>)

  datatype Service = Service(net: NetAddr, port: nat)

  /** An address as gossiped: where, when it was last seen and the service flags it offers. */
  datatype Address = Address(service: Service, time: int, services: set<nat>)

  datatype Info = Info(
    service: Service, time: int, services: set<nat>, source: NetAddr,
    lastTry: int, lastCountAttempt: int, lastSuccess: int, attempts: int,
    refCount: int, inTried: bool, randomPos: int)
  {
    predicate IsTerrible(now: int) {
      if lastTry != 0 && lastTry >= now - 60 then false
      else
        || time > now + 10 * 60
        || time == 0 || now - time > HORIZON_DAYS * 24 * 60 * 60
        || (lastSuccess == 0 && attempts >= RETRIES)
        || (now - lastSuccess > MIN_FAIL_DAYS * 24 * 60 * 60 && attempts >= MAX_FAILURES)
    }
  }

  /** The secret key, the cheap hash of a list of fields, and facts about addresses. */
  datatype Env = Env(
    nKey: nat,
    cheapHash: seq<seq<int>> -> nat,
    serviceKey: Service -> seq<int>,
    group: NetAddr -> seq<int>,
    isRoutable: NetAddr -> bool,
    isValid: NetAddr -> bool,
    netClass: NetAddr -> nat)
  {
    function TriedBucket(a: Service): (b: nat)
      ensures b < TRIED_BUCKET_COUNT
    {
      var hash1 := cheapHash([[nKey], serviceKey(a)]);
      cheapHash([[nKey], group(a.net), [hash1 % TRIED_BUCKETS_PER_GROUP]]) % TRIED_BUCKET_COUNT
    }

    function NewBucket(a: Service, src: NetAddr): (b: nat)
      ensures b < NEW_BUCKET_COUNT
    {
      var hash1 := cheapHash([[nKey], group(a.net), group(src)]);
      cheapHash([[nKey], group(src), [hash1 % NEW_BUCKETS_PER_SOURCE_GROUP]]) % NEW_BUCKET_COUNT
    }

    function Position(isNew: bool, bucket: nat, a: Service): (p: nat)
      ensures p < BUCKET_SIZE
    {
      cheapHash([[nKey], [if isNew then 'N' as int else 'K' as int], [bucket], serviceKey(a)]) % BUCKET_SIZE
    }
  }

  /** A table of buckets; -1 marks an empty slot. */
  type Table = seq<seq<int>>

  predicate Shaped(t: Table, buckets: nat) {
    |t| == buckets && forall b | 0 <= b < buckets :: |t[b]| == BUCKET_SIZE
  }

  function Put(t: Table, b: nat, i: nat, id: int): Table
    requires b < |t| && i < |t[b]|
  {
    t[b := t[b][i := id]]
  }

  datatype State = State(
    idCount: int,
    mapInfo: map<int, Info>,
    mapAddr: map<NetAddr, int>,
    vRandom: seq<int>,
    nTried: int,
    vvTried: Table,
    nNew: int,
    vvNew: Table,
    lastGood: int,
    collisions: set<int>)

  function EmptyTable(buckets: nat): Table {
    seq(buckets, _ => seq(BUCKET_SIZE, _ => -1))
  }

  /** The tables after construction. */
  function Initial(): State {
    State(0, map[], map[], [], 0, EmptyTable(TRIED_BUCKET_COUNT), 0, EmptyTable(NEW_BUCKET_COUNT), 1, {})
  }

  // ----- The invariant -----

  ghost function TriedIds(s: State): set<int> {
    set id | id in s.mapInfo && s.mapInfo[id].inTried
  }

  ghost function NewIds(s: State): set<int> {
    set id | id in s.mapInfo && !s.mapInfo[id].inTried
  }

  /** The new buckets that hold an id at the position its address hashes to. */
  ghost function NewBuckets(e: Env, vvNew: Table, a: Service, id: int): set<nat>
    requires Shaped(vvNew, NEW_BUCKET_COUNT)
  {
    set b: nat | b < NEW_BUCKET_COUNT && vvNew[b][e.Position(true, b, a)] == id
  }

  /** mapInfo, mapAddr and vRandom index the same ids. */
  ghost predicate IndexesOk(s: State) {
    && (forall id | id in s.mapInfo ::
        && 0 <= id < s.idCount
        && s.mapInfo[id].service.net in s.mapAddr && s.mapAddr[s.mapInfo[id].service.net] == id
        && 0 <= s.mapInfo[id].randomPos < |s.vRandom| && s.vRandom[s.mapInfo[id].randomPos] == id)
    && (forall a | a in s.mapAddr :: s.mapAddr[a] in s.mapInfo && s.mapInfo[s.mapAddr[a]].service.net == a)
    && (forall p | 0 <= p < |s.vRandom| ::
        s.vRandom[p] in s.mapInfo && s.mapInfo[s.vRandom[p]].randomPos == p)
  }

  /** Every occupied slot holds an id of the right kind at the right place. */
  ghost predicate TablesOk(e: Env, s: State) {
    && Shaped(s.vvNew, NEW_BUCKET_COUNT)
    && Shaped(s.vvTried, TRIED_BUCKET_COUNT)
    && (forall b, i | 0 <= b < NEW_BUCKET_COUNT && 0 <= i < BUCKET_SIZE && s.vvNew[b][i] != -1 ::
        && s.vvNew[b][i] in s.mapInfo
        && !s.mapInfo[s.vvNew[b][i]].inTried
        && i == e.Position(true, b, s.mapInfo[s.vvNew[b][i]].service))
    && (forall b, i | 0 <= b < TRIED_BUCKET_COUNT && 0 <= i < BUCKET_SIZE && s.vvTried[b][i] != -1 ::
        && s.vvTried[b][i] in s.mapInfo
        && s.mapInfo[s.vvTried[b][i]].inTried
        && b == e.TriedBucket(s.mapInfo[s.vvTried[b][i]].service)
        && i == e.Position(false, b, s.mapInfo[s.vvTried[b][i]].service))
  }

  function TriedSlot(e: Env, s: State, a: Service): int
    requires Shaped(s.vvTried, TRIED_BUCKET_COUNT)
  {
    s.vvTried[e.TriedBucket(a)][e.Position(false, e.TriedBucket(a), a)]
  }

  /** One entry against the tables; an entry in limbo may have no reference yet. */
  ghost predicate InfoOk(e: Env, s: State, limbo: set<int>, id: int)
    requires Shaped(s.vvNew, NEW_BUCKET_COUNT) && Shaped(s.vvTried, TRIED_BUCKET_COUNT) && id in s.mapInfo
  {
    var info := s.mapInfo[id];
    && (id in limbo ==> !info.inTried && info.refCount == 0)
    && if info.inTried then
         info.refCount == 0 && TriedSlot(e, s, info.service) == id
       else
         && info.refCount == |NewBuckets(e, s.vvNew, info.service, id)| <= NEW_BUCKETS_PER_ADDRESS
         && (id !in limbo ==> info.refCount > 0)
  }

  /**
    The invariant in the middle of an operation: the entries of limbo are in neither
    table, and uncounted of them are not counted in nNew.
  */
  ghost predicate Consistent(e: Env, s: State, limbo: set<int>, uncounted: int) {
    && s.idCount >= 0
    && IndexesOk(s)
    && TablesOk(e, s)
    && limbo <= s.mapInfo.Keys
    && (forall id | id in s.mapInfo :: InfoOk(e, s, limbo, id))
    && s.nTried == |TriedIds(s)|
    && s.nNew + uncounted == |NewIds(s)|
    && |s.vRandom| == |TriedIds(s)| + |NewIds(s)|
  }

  /** A pending collision that still exists has something to collide with. */
  ghost predicate CollisionsOk(e: Env, s: State)
    requires Shaped(s.vvTried, TRIED_BUCKET_COUNT)
  {
    && |s.collisions| <= SET_TRIED_COLLISION_SIZE
    && forall id | id in s.collisions ::
        0 <= id < s.idCount && (id in s.mapInfo ==> TriedSlot(e, s, s.mapInfo[id].service) != -1)
  }

  /** The tables, the indexes and the counters agree, whatever times the entries carry. */
  ghost predicate Intact(e: Env, s: State) {
    Consistent(e, s, {}, 0) && CollisionsOk(e, s)
  }

  /** The times of an entry make sense; a tried entry has been reached. */
  predicate TimesOk(info: Info) {
    info.lastTry >= 0 && info.lastSuccess >= 0 && (info.inTried ==> info.lastSuccess > 0)
  }

  ghost predicate Dated(s: State) {
    forall id | id in s.mapInfo :: TimesOk(s.mapInfo[id])
  }

  ghost predicate Inv(e: Env, s: State) {
    Intact(e, s) && Dated(s)
  }

  // ----- Operations on the tables -----

  function Find(s: State, a: NetAddr): Option<int> {
    if a in s.mapAddr && s.mapAddr[a] in s.mapInfo then Some(s.mapAddr[a]) else None
  }

  function Create(s: State, addr: Address, source: NetAddr): State {
    State(s.idCount + 1,
          s.mapInfo[s.idCount :=
            Info(addr.service, addr.time, addr.services, source, 0, 0, 0, 0, 0, false, |s.vRandom|)],
          s.mapAddr[addr.service.net := s.idCount],
          s.vRandom + [s.idCount],
          s.nTried, s.vvTried, s.nNew, s.vvNew, s.lastGood, s.collisions)
  }

  function WithInfo(s: State, id: int, info: Info): State {
    s.(mapInfo := s.mapInfo[id := info])
  }

  /** The asserts of SwapRandom. */
  predicate MaySwap(s: State, p: int, q: int) {
    && 0 <= p < |s.vRandom| && 0 <= q < |s.vRandom|
    && s.vRandom[p] in s.mapInfo && s.vRandom[q] in s.mapInfo
  }

  function SwapRandom(s: State, p: int, q: int): State
    requires MaySwap(s, p, q)
  {
    if p == q then s else
    var id1, id2 := s.vRandom[p], s.vRandom[q];
    var moved := s.mapInfo[id1 := s.mapInfo[id1].(randomPos := q)];
    s.(mapInfo := moved[id2 := moved[id2].(randomPos := p)], vRandom := s.vRandom[p := id2][q := id1])
  }

  /** The asserts of Delete and of the swap it makes. */
  predicate MayDelete(s: State, id: int) {
    && id in s.mapInfo && !s.mapInfo[id].inTried && s.mapInfo[id].refCount == 0
    && MaySwap(s, s.mapInfo[id].randomPos, |s.vRandom| - 1)
  }

  function Delete(s: State, id: int): State
    requires MayDelete(s, id)
  {
    var t := SwapRandom(s, s.mapInfo[id].randomPos, |s.vRandom| - 1);
    t.(vRandom := t.vRandom[..|t.vRandom| - 1],
       mapAddr := t.mapAddr - {s.mapInfo[id].service.net},
       mapInfo := t.mapInfo - {id},
       nNew := t.nNew - 1)
  }

  /** Take one reference away from the entry in a slot and empty the slot. */
  function Unreference(s: State, b: nat, i: nat): State
    requires Shaped(s.vvNew, NEW_BUCKET_COUNT) && b < NEW_BUCKET_COUNT && i < BUCKET_SIZE
    requires s.vvNew[b][i] in s.mapInfo
  {
    var id := s.vvNew[b][i];
    s.(mapInfo := s.mapInfo[id := s.mapInfo[id].(refCount := s.mapInfo[id].refCount - 1)],
       vvNew := Put(s.vvNew, b, i, -1))
  }

  predicate MayClearNew(s: State, b: nat, i: nat) {
    && Shaped(s.vvNew, NEW_BUCKET_COUNT) && b < NEW_BUCKET_COUNT && i < BUCKET_SIZE
    && (s.vvNew[b][i] != -1 ==>
        && s.vvNew[b][i] in s.mapInfo && s.mapInfo[s.vvNew[b][i]].refCount > 0
        && (s.mapInfo[s.vvNew[b][i]].refCount == 1 ==> MayDelete(Unreference(s, b, i), s.vvNew[b][i])))
  }

  function ClearNew(s: State, b: nat, i: nat): State
    requires MayClearNew(s, b, i)
  {
    if s.vvNew[b][i] == -1 then s else
    var t := Unreference(s, b, i);
    if t.mapInfo[s.vvNew[b][i]].refCount == 0 then Delete(t, s.vvNew[b][i]) else t
  }

  /** Remove an id from every new bucket, as the loop at the start of MakeTried does. */
  function DropFromNew(e: Env, vvNew: Table, a: Service, id: int): Table
    requires Shaped(vvNew, NEW_BUCKET_COUNT)
  {
    seq(NEW_BUCKET_COUNT, b requires 0 <= b < NEW_BUCKET_COUNT =>
      if vvNew[b][e.Position(true, b, a)] == id then vvNew[b][e.Position(true, b, a) := -1] else vvNew[b])
  }
}
