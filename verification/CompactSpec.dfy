/**
  Rebuilding a block from a compact one (BIP 152).

  Hashes are numbers and the keyed short-id hash is left open. A transaction reference that is
  not there is None.
*/
module CompactSpec {
  import opened Wrappers

  datatype Tx = Tx(hash: nat, witnessHash: nat, isNull: bool)

  /** index is the distance from the prefilled transaction before. */
  datatype Prefilled = Prefilled(index: nat, tx: Tx)

  datatype Compact = Compact(header: Option<nat>, shortIds: seq<nat>, prefilled: seq<Prefilled>)

  /** A pool or extra transaction with the hash short ids are taken of. */
  datatype Candidate = Candidate(hash: nat, tx: Tx)

  type Slots = seq<Option<Tx>>

  /** The largest block weight divided by the smallest transaction weight. */
  const MAX_TRANSACTIONS := 100000

  function TxCount(c: Compact): nat {
    |c.shortIds| + |c.prefilled|
  }

  /** What deserialization lets through: every index fits into 16 bits. */
  predicate Received(c: Compact) {
    TxCount(c) <= 65535 && forall i | 0 <= i < |c.prefilled| :: c.prefilled[i].index <= 65535
  }

  // ----- Prefilled transactions -----

  /** The slot of the k-th prefilled transaction. */
  function Position(c: Compact, k: int): int
    requires -1 <= k < |c.prefilled|
    decreases k
  {
    if k == -1 then -1 else Position(c, k - 1) + c.prefilled[k].index + 1
  }

  predicate Placeable(c: Compact, k: nat)
    requires k < |c.prefilled|
  {
    !c.prefilled[k].tx.isNull && Position(c, k) <= 65535 && Position(c, k) <= |c.shortIds| + k
  }

  /** The slots after the first k prefilled transactions, if all were accepted. */
  function Place(c: Compact, k: nat): (slots: Option<Slots>)
    requires k <= |c.prefilled|
    ensures slots.Some? ==> |slots.value| == TxCount(c)
    decreases k
  {
    if k == 0 then Some(seq(TxCount(c), _ => None)) else
    match Place(c, k - 1)
    case None => None
    case Some(slots) =>
      if !Placeable(c, k - 1) then None else
      PositionRises(c, -1, k - 1);
      Some(slots[Position(c, k - 1) := Some(c.prefilled[k - 1].tx)])
  }

  lemma {:induction false} PositionRises(c: Compact, j: int, k: int)
    requires -1 <= j <= k < |c.prefilled|
    ensures Position(c, j) + (k - j) <= Position(c, k)
    decreases k
  {
    if j < k { PositionRises(c, j, k - 1); }
  }

  function Empty(slots: Slots): nat {
    if slots == [] then 0 else Empty(slots[..|slots| - 1]) + if slots[|slots| - 1].None? then 1 else 0
  }

  lemma {:induction false} EmptyAll(n: nat)
    ensures Empty(seq(n, _ => None)) == n
  {
    if n > 0 {
      var s: Slots := seq(n, _ => None);
      assert s[..n - 1] == seq(n - 1, _ => None);
      EmptyAll(n - 1);
    }
  }

  lemma {:induction false} EmptyUpdate(slots: Slots, p: nat, tx: Tx)
    requires p < |slots| && slots[p].None?
    ensures Empty(slots[p := Some(tx)]) == Empty(slots) - 1
    decreases |slots|
  {
    var n := |slots| - 1;
    if p < n {
      assert slots[p := Some(tx)][..n] == slots[..n][p := Some(tx)];
      EmptyUpdate(slots[..n], p, tx);
    } else {
      assert slots[p := Some(tx)][..n] == slots[..n];
    }
  }

  lemma {:induction false} PlaceLeavesEmpty(c: Compact, k: nat)
    requires k <= |c.prefilled| && Place(c, k).Some?
    ensures forall p | 0 <= p < TxCount(c) && Position(c, k - 1) < p :: Place(c, k).value[p].None?
    ensures Empty(Place(c, k).value) == TxCount(c) - k
    decreases k
  {
    if k == 0 {
      EmptyAll(TxCount(c));
    } else {
      PlaceLeavesEmpty(c, k - 1);
      PositionRises(c, k - 2, k - 1);
      PositionRises(c, -1, k - 1);
      EmptyUpdate(Place(c, k - 1).value, Position(c, k - 1), c.prefilled[k - 1].tx);
    }
  }

  /** Prefilled transactions get slots of their own; all other slots stay empty. */
  lemma {:induction false} PlaceDistinct(c: Compact, k: nat)
    requires k <= |c.prefilled| && Place(c, k).Some?
    ensures forall j | 0 <= j < k ::
      0 <= Position(c, j) < TxCount(c) && Place(c, k).value[Position(c, j)] == Some(c.prefilled[j].tx)
    ensures forall p | 0 <= p < TxCount(c) && Place(c, k).value[p].Some? :: exists j | 0 <= j < k :: Position(c, j) == p
    decreases k
  {
    if k > 0 {
      PlaceDistinct(c, k - 1);
      var before, slots, p := Place(c, k - 1).value, Place(c, k).value, Position(c, k - 1);
      PositionRises(c, -1, k - 1);
      forall j | 0 <= j < k - 1 ensures slots[Position(c, j)] == Some(c.prefilled[j].tx) {
        PositionRises(c, j, k - 1);
      }
      forall q | 0 <= q < |slots| && slots[q].Some? ensures exists j | 0 <= j < k :: Position(c, j) == q {
        if q != p { assert before[q].Some?; }
      }
    }
  }

  /** Exactly the messages whose prefilled transactions are there and leave no gap that no id can fill. */
  lemma {:induction false} PlaceIff(c: Compact, k: nat)
    requires k <= |c.prefilled|
    ensures Place(c, k).Some? <==>
      forall j | 0 <= j < k ::
        !c.prefilled[j].tx.isNull && Position(c, j) <= 65535 && Position(c, j) <= |c.shortIds| + j
    decreases k
  {
    if k > 0 { PlaceIff(c, k - 1); }
  }

  /** How many places lie between a position and the one before. */
  function Distance(positions: seq<nat>, j: nat): int
    requires j < |positions|
  {
    positions[j] as int - if j == 0 then 0 else positions[j - 1] + 1
  }

  /** Indexes are sent as distances from the one before: any ascending positions come out again. */
  lemma {:induction false} PositionsReceived(c: Compact, positions: seq<nat>, k: nat)
    requires k < |c.prefilled| == |positions|
    requires forall j | 0 <= j < |positions| :: c.prefilled[j].index == Distance(positions, j)
    ensures Position(c, k) == positions[k]
    decreases k
  {
    if k == 0 {
      assert Position(c, -1) == -1;
    } else {
      PositionsReceived(c, positions, k - 1);
    }
  }

  // ----- Short ids -----

  /** The empty slots from a place on, in order. */
  function Free(slots: Slots, from: nat): seq<nat>
    requires from <= |slots|
    decreases |slots| - from
  {
    if from == |slots| then [] else
    (if slots[from].None? then [from] else []) + Free(slots, from + 1)
  }

  lemma {:induction false} FreeAscends(slots: Slots, from: nat)
    requires from <= |slots|
    ensures forall i | 0 <= i < |Free(slots, from)| :: from <= Free(slots, from)[i] < |slots|
    ensures forall i, j | 0 <= i < j < |Free(slots, from)| :: Free(slots, from)[i] < Free(slots, from)[j]
    decreases |slots| - from
  {
    if from < |slots| {
      FreeAscends(slots, from + 1);
      var free, rest := Free(slots, from), Free(slots, from + 1);
      if slots[from].None? {
        assert forall i | 0 < i < |free| :: free[i] == rest[i - 1];
      } else {
        assert free == rest;
      }
    }
  }

  lemma {:induction false} FreeIff(slots: Slots, from: nat)
    requires from <= |slots|
    ensures forall p :: p in Free(slots, from) <==> from <= p < |slots| && slots[p].None?
    decreases |slots| - from
  {
    if from < |slots| { FreeIff(slots, from + 1); }
  }

  lemma {:induction false} FreeCount(slots: Slots, from: nat)
    requires from <= |slots|
    ensures |Free(slots, from)| + Empty(slots[..from]) == Empty(slots)
    decreases |slots| - from
  {
    if from == |slots| {
      assert slots[..from] == slots;
    } else {
      FreeCount(slots, from + 1);
      assert slots[..from + 1][..from] == slots[..from];
    }
  }

  /** The first k ids with their slots, in 16 bits; a repeated id keeps the later slot. */
  function MapIds(ids: seq<nat>, free: seq<nat>, k: nat): map<nat, nat>
    requires k <= |ids| <= |free|
    decreases k
  {
    if k == 0 then map[] else MapIds(ids, free, k - 1)[ids[k - 1] := free[k - 1] % 65536]
  }

  predicate NoRepeats(ids: seq<nat>) {
    forall i, j | 0 <= i < j < |ids| :: ids[i] != ids[j]
  }

  /** The map has as many entries as there are ids exactly when no id repeats. */
  lemma {:induction false} MapIdsSize(ids: seq<nat>, free: seq<nat>, k: nat)
    requires k <= |ids| <= |free|
    ensures var m := MapIds(ids, free, k);
      && (forall id :: id in m <==> id in ids[..k])
      && |m| <= k && (|m| == k <==> NoRepeats(ids[..k]))
    decreases k
  {
    if k > 0 {
      MapIdsSize(ids, free, k - 1);
      var m, before, id := MapIds(ids, free, k), MapIds(ids, free, k - 1), ids[k - 1];
      assert ids[..k] == ids[..k - 1] + [id];
      assert m.Keys == before.Keys + {id};
      Repeats(ids[..k - 1], id);
      if id in before {
        assert m.Keys == before.Keys;
      } else {
        assert |m.Keys| == |before.Keys| + 1;
      }
    }
  }

  lemma Repeats(ids: seq<nat>, id: nat)
    ensures NoRepeats(ids + [id]) <==> NoRepeats(ids) && id !in ids
  {
    var all := ids + [id];
    if NoRepeats(all) {
      assert forall i | 0 <= i < |ids| :: all[i] == ids[i] && all[i] != all[|ids|];
    }
  }

  /** Without repeats and in 16 bits every id has its own slot. */
  lemma {:induction false} MapIdsOk(ids: seq<nat>, free: seq<nat>, k: nat)
    requires k <= |ids| <= |free| && NoRepeats(ids) && forall i | 0 <= i < |free| :: free[i] < 65536
    ensures forall i | 0 <= i < k :: ids[i] in MapIds(ids, free, k) && MapIds(ids, free, k)[ids[i]] == free[i]
    decreases k
  {
    if k > 0 { MapIdsOk(ids, free, k - 1); }
  }

  // ----- Looking through the pool and the extra transactions -----

  datatype Scan = Scan(slots: Slots, have: seq<bool>, count: int)

  predicate ScanFits(ids: map<nat, nat>, s: Scan) {
    |s.slots| == |s.have| && forall id | id in ids :: ids[id] < |s.slots|
  }

  /** A second match empties the slot again; among extra ones only if its witness hash differs. */
  function Match(sid: nat -> nat, ids: map<nat, nat>, extra: bool, s: Scan, e: Candidate): (t: Scan)
    requires ScanFits(ids, s)
    ensures ScanFits(ids, t)
  {
    var id := sid(e.hash);
    if id !in ids then s else
    var p := ids[id];
    if !s.have[p] then Scan(s.slots[p := Some(e.tx)], s.have[p := true], s.count + 1)
    else if s.slots[p].Some? && (extra ==> s.slots[p].value.witnessHash != e.tx.witnessHash) then
      Scan(s.slots[p := None], s.have, s.count - 1)
    else s
  }

  /** Stops early once every id has its transaction. */
  function Search(sid: nat -> nat, ids: map<nat, nat>, extra: bool, s: Scan, es: seq<Candidate>): (t: Scan)
    requires ScanFits(ids, s)
    ensures ScanFits(ids, t) && |t.slots| == |s.slots|
    decreases |es|
  {
    if es == [] then s else
    var t := Match(sid, ids, extra, s, es[0]);
    if t.count == |ids| then t else Search(sid, ids, extra, t, es[1..])
  }

  predicate Injective(ids: map<nat, nat>) {
    forall a, b | a in ids && b in ids && ids[a] == ids[b] :: a == b
  }

  function Found(ids: map<nat, nat>, slots: Slots): set<nat>
    requires forall id | id in ids :: ids[id] < |slots|
  {
    set id | id in ids && slots[ids[id]].Some?
  }

  ghost predicate IsSlot(ids: map<nat, nat>, p: nat) {
    exists id | id in ids :: ids[id] == p
  }

  /** A candidate with this id. */
  ghost predicate Offered(sid: nat -> nat, all: seq<Candidate>, id: nat, tx: Tx) {
    exists i | 0 <= i < |all| :: sid(all[i].hash) == id && all[i].tx == tx
  }

  /** What a scan keeps: other slots, the count, and where each transaction came from. */
  ghost predicate ScanInv(sid: nat -> nat, ids: map<nat, nat>, base: Slots, all: seq<Candidate>, s: Scan) {
    && ScanFits(ids, s) && |base| == |s.slots|
    && (forall p | 0 <= p < |base| && !IsSlot(ids, p) :: s.slots[p] == base[p])
    && (forall id | id in ids && !s.have[ids[id]] :: s.slots[ids[id]].None?)
    && (forall id | id in ids && s.slots[ids[id]].Some? :: Offered(sid, all, id, s.slots[ids[id]].value))
    && s.count == |Found(ids, s.slots)|
  }

  lemma FoundPut(ids: map<nat, nat>, slots: Slots, id: nat, slot: Option<Tx>)
    requires Injective(ids) && id in ids && forall k | k in ids :: ids[k] < |slots|
    ensures |Found(ids, slots[ids[id] := slot])| ==
      |Found(ids, slots)| - (if slots[ids[id]].Some? then 1 else 0) + if slot.Some? then 1 else 0
  {
    var before, after := Found(ids, slots), Found(ids, slots[ids[id] := slot]);
    assert after - {id} == before - {id};
    assert id in before <==> slots[ids[id]].Some?;
    assert id in after <==> slot.Some?;
    if id in before { assert before == (before - {id}) + {id}; } else { assert before == before - {id}; }
    if id in after { assert after == (after - {id}) + {id}; } else { assert after == after - {id}; }
  }

  lemma MatchCounts(sid: nat -> nat, ids: map<nat, nat>, extra: bool, s: Scan, e: Candidate)
    requires Injective(ids) && ScanFits(ids, s) && s.count == |Found(ids, s.slots)|
    requires forall id | id in ids && !s.have[ids[id]] :: s.slots[ids[id]].None?
    ensures var t := Match(sid, ids, extra, s, e); t.count == |Found(ids, t.slots)|
  {
    hide Found, Injective;
    var id := sid(e.hash);
    if id in ids {
      FoundPut(ids, s.slots, id, Some(e.tx));
      FoundPut(ids, s.slots, id, None);
    }
  }

  lemma MatchKeeps(sid: nat -> nat, ids: map<nat, nat>, base: Slots, all: seq<Candidate>, extra: bool, s: Scan,
      e: Candidate)
    requires Injective(ids) && ScanInv(sid, ids, base, all, s) && e in all
    ensures ScanInv(sid, ids, base, all, Match(sid, ids, extra, s, e))
  {
    hide Found;
    MatchCounts(sid, ids, extra, s, e);
    var id, t := sid(e.hash), Match(sid, ids, extra, s, e);
    if id in ids {
      assert IsSlot(ids, ids[id]);
      assert Offered(sid, all, id, e.tx);
      forall k | k in ids && t.slots[ids[k]].Some? ensures Offered(sid, all, k, t.slots[ids[k]].value) {
        if k != id { assert ids[k] != ids[id]; }
      }
    }
  }

  lemma {:induction false} SearchKeeps(
    sid: nat -> nat, ids: map<nat, nat>, base: Slots, all: seq<Candidate>, extra: bool, s: Scan, es: seq<Candidate>)
    requires Injective(ids) && ScanInv(sid, ids, base, all, s) && forall i | 0 <= i < |es| :: es[i] in all
    ensures ScanInv(sid, ids, base, all, Search(sid, ids, extra, s, es))
    decreases |es|
  {
    hide ScanInv;
    InvFits(sid, ids, base, all, s);
    if es != [] {
      MatchKeeps(sid, ids, base, all, extra, s, es[0]);
      var t := Match(sid, ids, extra, s, es[0]);
      SearchKeeps(sid, ids, base, all, extra, t, es[1..]);
    }
  }

  lemma InvFits(sid: nat -> nat, ids: map<nat, nat>, base: Slots, all: seq<Candidate>, s: Scan)
    requires ScanInv(sid, ids, base, all, s)
    ensures ScanFits(ids, s)
  {
  }

  /** Counted to the full, every id has its transaction. */
  lemma AllFound(sid: nat -> nat, ids: map<nat, nat>, base: Slots, all: seq<Candidate>, s: Scan, id: nat)
    requires ScanInv(sid, ids, base, all, s) && s.count == |ids| && id in ids
    ensures s.slots[ids[id]].Some?
  {
    var found := Found(ids, s.slots);
    assert found <= ids.Keys;
    assert |ids.Keys - found| == |ids.Keys| - |found|;
    assert ids.Keys - found == {};
    assert id in found;
  }

  function Matching(sid: nat -> nat, id: nat, es: seq<Candidate>): nat {
    if es == [] then 0 else (if sid(es[0].hash) == id then 1 else 0) + Matching(sid, id, es[1..])
  }

  /** One match has been seen, or one is still to come, and no other. */
  ghost predicate OneMatch(ids: map<nat, nat>, s: Scan, id: nat, left: nat)
    requires ScanFits(ids, s) && id in ids
  {
    if s.have[ids[id]] then s.slots[ids[id]].Some? && left == 0 else left == 1
  }

  lemma {:induction false} SearchFinds(
    sid: nat -> nat, ids: map<nat, nat>, base: Slots, all: seq<Candidate>, extra: bool, s: Scan, es: seq<Candidate>,
    id: nat, rest: nat)
    requires Injective(ids) && ScanInv(sid, ids, base, all, s) && id in ids && forall i | 0 <= i < |es| :: es[i] in all
    requires ScanFits(ids, s) && OneMatch(ids, s, id, Matching(sid, id, es) + rest)
    ensures OneMatch(ids, Search(sid, ids, extra, s, es), id, rest)
    decreases |es|
  {
    hide ScanInv, Found;
    if es != [] {
      MatchKeeps(sid, ids, base, all, extra, s, es[0]);
      var t := Match(sid, ids, extra, s, es[0]);
      assert OneMatch(ids, t, id, Matching(sid, id, es[1..]) + rest);
      if t.count == |ids| {
        AllFound(sid, ids, base, all, t, id);
        FoundHad(sid, ids, base, all, t, id);
      } else {
        SearchFinds(sid, ids, base, all, extra, t, es[1..], id, rest);
      }
    }
  }

  lemma FoundHad(sid: nat -> nat, ids: map<nat, nat>, base: Slots, all: seq<Candidate>, s: Scan, id: nat)
    requires ScanInv(sid, ids, base, all, s) && id in ids && s.slots[ids[id]].Some?
    ensures s.have[ids[id]]
  {
  }

  // ----- Filling in the rest -----

  /** The first k transactions and how many of the missing ones they took. */
  function FillTo(slots: Slots, missing: seq<Tx>, k: nat): Option<(seq<Tx>, nat)>
    requires k <= |slots|
    decreases k
  {
    if k == 0 then Some(([], 0)) else
    match FillTo(slots, missing, k - 1)
    case None => None
    case Some((block, used)) =>
      if slots[k - 1].Some? then Some((block + [slots[k - 1].value], used))
      else if used >= |missing| then None
      else Some((block + [missing[used]], used + 1))
  }

  /** The block, if exactly the missing transactions were given. */
  function Fill(slots: Slots, missing: seq<Tx>): Option<seq<Tx>> {
    match FillTo(slots, missing, |slots|)
    case None => None
    case Some((block, used)) => if used == |missing| then Some(block) else None
  }

  lemma {:induction false} FillToIff(slots: Slots, missing: seq<Tx>, k: nat)
    requires k <= |slots|
    ensures FillTo(slots, missing, k).Some? <==> Empty(slots[..k]) <= |missing|
    ensures FillTo(slots, missing, k).Some? ==>
      FillTo(slots, missing, k).value.1 == Empty(slots[..k]) && |FillTo(slots, missing, k).value.0| == k
    decreases k
  {
    if k > 0 {
      FillToIff(slots, missing, k - 1);
      assert slots[..k][..k - 1] == slots[..k - 1];
    }
  }

  /** The block is complete exactly when there are as many transactions as empty slots. */
  lemma FillIff(slots: Slots, missing: seq<Tx>)
    ensures Fill(slots, missing).Some? <==> |missing| == Empty(slots)
  {
    FillToIff(slots, missing, |slots|);
    assert slots[..|slots|] == slots;
  }

  /** The transactions of a block for which the slots are empty. */
  function Absent(slots: Slots, vtx: seq<Tx>, k: nat): seq<Tx>
    requires k <= |slots| == |vtx|
    decreases k
  {
    if k == 0 then [] else Absent(slots, vtx, k - 1) + if slots[k - 1].None? then [vtx[k - 1]] else []
  }

  lemma {:induction false} AbsentPrefix(slots: Slots, vtx: seq<Tx>, k: nat, n: nat)
    requires k <= n <= |slots| == |vtx|
    ensures Absent(slots, vtx, k) <= Absent(slots, vtx, n)
    decreases n
  {
    if k < n { AbsentPrefix(slots, vtx, k, n - 1); }
  }

  lemma {:induction false} FillRebuilds(slots: Slots, vtx: seq<Tx>, k: nat)
    requires k <= |slots| == |vtx| && forall p | 0 <= p < |slots| && slots[p].Some? :: slots[p].value == vtx[p]
    ensures FillTo(slots, Absent(slots, vtx, |slots|), k) == Some((vtx[..k], |Absent(slots, vtx, k)|))
    decreases k
  {
    if k > 0 {
      FillRebuilds(slots, vtx, k - 1);
      AbsentPrefix(slots, vtx, k, |slots|);
      assert vtx[..k] == vtx[..k - 1] + [vtx[k - 1]];
    }
  }

  // ----- From compact block to block -----

  datatype Status = Ok | Invalid | Failed | CheckBlockFailed

  datatype Outcome = Reject(status: Status) | Accept(scan: Scan)

  /** The slots and the id map of a compact block whose checks pass. */
  function Layout(c: Compact): Option<Slots> {
    if c.header.None? || (c.shortIds == [] && c.prefilled == []) || TxCount(c) > MAX_TRANSACTIONS then None
    else Place(c, |c.prefilled|)
  }

  lemma LayoutFree(c: Compact)
    requires Layout(c).Some?
    ensures |Layout(c).value| == TxCount(c) && |Free(Layout(c).value, 0)| == |c.shortIds|
  {
    var base := Layout(c).value;
    PlaceLeavesEmpty(c, |c.prefilled|);
    FreeCount(base, 0);
    assert base[..0] == [];
  }

  function Ids(c: Compact): map<nat, nat>
    requires Layout(c).Some?
  {
    LayoutFree(c);
    MapIds(c.shortIds, Free(Layout(c).value, 0), |c.shortIds|)
  }

  /** crowded says of which ids the bucket of the hash map got too full. */
  function Init(c: Compact, sid: nat -> nat, crowded: set<nat>, pool: seq<Candidate>, extra: seq<Candidate>): Outcome {
    match Layout(c)
    case None => Reject(Invalid)
    case Some(base) =>
      if exists i | 0 <= i < |c.shortIds| :: c.shortIds[i] in crowded then Reject(Failed) else
      if |Ids(c)| != |c.shortIds| then Reject(Failed) else
      IdsInRange(c);
      var start := Scan(base, seq(|base|, _ => false), 0);
      Accept(Search(sid, Ids(c), true, Search(sid, Ids(c), false, start, pool), extra))
  }

  lemma {:induction false} MapIdsInRange(ids: seq<nat>, free: seq<nat>, k: nat, bound: nat)
    requires k <= |ids| <= |free| && forall i | 0 <= i < |free| :: free[i] < bound
    ensures forall id | id in MapIds(ids, free, k) :: MapIds(ids, free, k)[id] < bound
    decreases k
  {
    if k > 0 {
      MapIdsInRange(ids, free, k - 1, bound);
      assert free[k - 1] % 65536 <= free[k - 1];
    }
  }

  lemma IdsInRange(c: Compact)
    requires Layout(c).Some?
    ensures forall id | id in Ids(c) :: Ids(c)[id] < TxCount(c)
  {
    LayoutFree(c);
    FreeAscends(Layout(c).value, 0);
    MapIdsInRange(c.shortIds, Free(Layout(c).value, 0), |c.shortIds|, TxCount(c));
  }

  /** In an accepted message the i-th id has the i-th empty slot. */
  lemma IdsOnFreeSlots(c: Compact)
    requires Received(c) && Layout(c).Some? && |Ids(c)| == |c.shortIds|
    ensures var free := Free(Layout(c).value, 0);
      && |free| == |c.shortIds| && NoRepeats(c.shortIds)
      && forall i | 0 <= i < |free| :: c.shortIds[i] in Ids(c) && Ids(c)[c.shortIds[i]] == free[i]
    ensures forall id :: id in Ids(c) <==> id in c.shortIds
  {
    var free := Free(Layout(c).value, 0);
    LayoutFree(c);
    FreeAscends(Layout(c).value, 0);
    MapIdsSize(c.shortIds, free, |c.shortIds|);
    assert c.shortIds[..|c.shortIds|] == c.shortIds;
    MapIdsOk(c.shortIds, free, |c.shortIds|);
  }

  lemma SlotOfId(c: Compact, id: nat) returns (i: nat)
    requires Received(c) && Layout(c).Some? && |Ids(c)| == |c.shortIds| && id in Ids(c)
    ensures |Free(Layout(c).value, 0)| == |c.shortIds|
    ensures i < |c.shortIds| && c.shortIds[i] == id && Ids(c)[id] == Free(Layout(c).value, 0)[i]
  {
    IdsOnFreeSlots(c);
    i :| 0 <= i < |c.shortIds| && c.shortIds[i] == id;
  }

  /** So no two ids share a slot, and none has a prefilled one. */
  lemma IdsDistinct(c: Compact)
    requires Received(c) && Layout(c).Some? && |Ids(c)| == |c.shortIds|
    ensures Injective(Ids(c))
    ensures forall id | id in Ids(c) :: Ids(c)[id] < TxCount(c) && Layout(c).value[Ids(c)[id]].None?
  {
    hide Ids, Free;
    var base := Layout(c).value;
    FreeAscends(base, 0);
    FreeIff(base, 0);
    LayoutFree(c);
    forall id | id in Ids(c) ensures Ids(c)[id] < TxCount(c) && base[Ids(c)[id]].None? {
      var i := SlotOfId(c, id);
      assert Free(base, 0)[i] in Free(base, 0);
    }
    forall a, b | a in Ids(c) && b in Ids(c) && Ids(c)[a] == Ids(c)[b] ensures a == b {
      var i := SlotOfId(c, a);
      var j := SlotOfId(c, b);
    }
  }

  // ----- Exactly which slots a scan fills -----

  /** How many candidates are looked at before the early exit. */
  function Scanned(sid: nat -> nat, ids: map<nat, nat>, extra: bool, s: Scan, es: seq<Candidate>): (n: nat)
    requires ScanFits(ids, s)
    ensures n <= |es|
    decreases |es|
  {
    if es == [] then 0 else
    var t := Match(sid, ids, extra, s, es[0]);
    if t.count == |ids| then 1 else 1 + Scanned(sid, ids, extra, t, es[1..])
  }

  /** The scan goes on to the last candidate unless every id has its transaction. */
  lemma {:induction false} StopsWhenAllFound(
    sid: nat -> nat, ids: map<nat, nat>, extra: bool, s: Scan, es: seq<Candidate>)
    requires ScanFits(ids, s)
    ensures Scanned(sid, ids, extra, s, es) < |es| ==> Search(sid, ids, extra, s, es).count == |ids|
    decreases |es|
  {
    if es != [] { StopsWhenAllFound(sid, ids, extra, Match(sid, ids, extra, s, es[0]), es[1..]); }
  }

  /** Every candidate with this id has this witness hash. */
  ghost predicate SameWitness(sid: nat -> nat, id: nat, es: seq<Candidate>, hash: nat) {
    forall i | 0 <= i < |es| && sid(es[i].hash) == id :: es[i].tx.witnessHash == hash
  }

  /** The transaction of the first candidate with this id. */
  function FirstMatch(sid: nat -> nat, id: nat, es: seq<Candidate>): Tx
    requires Matching(sid, id, es) > 0
  {
    if sid(es[0].hash) == id then es[0].tx else FirstMatch(sid, id, es[1..])
  }

  /**
    What a slot holds after candidates were looked at: a second match in the pool empties it
    for good; among the extra ones only a match with another witness hash does.
  */
  ghost function SlotAfter(sid: nat -> nat, id: nat, extra: bool, had: bool, slot: Option<Tx>, es: seq<Candidate>)
    : Option<Tx>
  {
    var n := Matching(sid, id, es);
    if n == 0 then slot
    else if had then
      if slot.Some? && extra && SameWitness(sid, id, es, slot.value.witnessHash) then slot else None
    else
      var first := FirstMatch(sid, id, es);
      if n == 1 || (extra && SameWitness(sid, id, es, first.witnessHash)) then Some(first) else None
  }

  lemma {:induction false} SearchExact(
    sid: nat -> nat, ids: map<nat, nat>, extra: bool, s: Scan, es: seq<Candidate>, id: nat)
    requires Injective(ids) && ScanFits(ids, s) && id in ids && (!s.have[ids[id]] ==> s.slots[ids[id]].None?)
    ensures var t := Search(sid, ids, extra, s, es);
      var seen := es[..Scanned(sid, ids, extra, s, es)];
      && t.slots[ids[id]] == SlotAfter(sid, id, extra, s.have[ids[id]], s.slots[ids[id]], seen)
      && t.have[ids[id]] == (s.have[ids[id]] || Matching(sid, id, seen) > 0)
    decreases |es|
  {
    var n := Scanned(sid, ids, extra, s, es);
    var seen := es[..n];
    if es != [] {
      hide Match, SlotAfter;
      var t := Match(sid, ids, extra, s, es[0]);
      var rest := seen[1..];
      MatchOne(sid, ids, extra, s, es[0], id);
      assert es[1..][..n - 1] == rest && seen[..1] == [es[0]];
      if t.count == |ids| {
        NothingSeen(sid, id, extra, t.have[ids[id]], t.slots[ids[id]]);
      } else {
        SearchExact(sid, ids, extra, t, es[1..], id);
      }
      SlotStep(sid, id, extra, s.have[ids[id]], s.slots[ids[id]], seen);
    } else {
      NothingSeen(sid, id, extra, s.have[ids[id]], s.slots[ids[id]]);
    }
  }

  lemma MatchOne(sid: nat -> nat, ids: map<nat, nat>, extra: bool, s: Scan, e: Candidate, id: nat)
    requires Injective(ids) && ScanFits(ids, s) && id in ids && (!s.have[ids[id]] ==> s.slots[ids[id]].None?)
    ensures var t := Match(sid, ids, extra, s, e);
      && t.slots[ids[id]] == SlotAfter(sid, id, extra, s.have[ids[id]], s.slots[ids[id]], [e])
      && t.have[ids[id]] == (s.have[ids[id]] || sid(e.hash) == id)
      && (!t.have[ids[id]] ==> t.slots[ids[id]].None?)
  {
    assert [e][1..] == [] && [e][0] == e;
    assert Matching(sid, id, [e]) == if sid(e.hash) == id then 1 else 0;
  }

  lemma NothingSeen(sid: nat -> nat, id: nat, extra: bool, had: bool, slot: Option<Tx>)
    ensures SlotAfter(sid, id, extra, had, slot, []) == slot
  {
  }

  /** Looking at the first candidate and then at the others. */
  lemma SlotStep(sid: nat -> nat, id: nat, extra: bool, had: bool, slot: Option<Tx>, es: seq<Candidate>)
    requires es != [] && (!had ==> slot.None?)
    ensures SlotAfter(sid, id, extra, had, slot, es) ==
      SlotAfter(sid, id, extra, had || sid(es[0].hash) == id, SlotAfter(sid, id, extra, had, slot, es[..1]), es[1..])
  {
    var first, rest := es[..1], es[1..];
    assert first == [es[0]] && first[1..] == [];
    assert Matching(sid, id, first) == if sid(es[0].hash) == id then 1 else 0;
    WitnessStep(sid, id, es);
    WitnessStep(sid, id, first);
    NoneMatching(sid, id, first[1..]);
    if Matching(sid, id, rest) == 0 { NoneMatching(sid, id, rest); }
  }

  lemma WitnessStep(sid: nat -> nat, id: nat, es: seq<Candidate>)
    requires es != []
    ensures forall w :: SameWitness(sid, id, es, w) <==>
      (sid(es[0].hash) == id ==> es[0].tx.witnessHash == w) && SameWitness(sid, id, es[1..], w)
  {
    forall w
      ensures SameWitness(sid, id, es, w) <==>
        (sid(es[0].hash) == id ==> es[0].tx.witnessHash == w) && SameWitness(sid, id, es[1..], w)
    {
      assert forall i | 0 < i < |es| :: es[i] == es[1..][i - 1];
      assert forall i | 0 <= i < |es[1..]| :: es[1..][i] == es[i + 1];
    }
  }

  lemma {:induction false} NoneMatching(sid: nat -> nat, id: nat, es: seq<Candidate>)
    requires Matching(sid, id, es) == 0
    ensures forall w :: SameWitness(sid, id, es, w)
    decreases |es|
  {
    if es != [] {
      NoneMatching(sid, id, es[1..]);
      WitnessStep(sid, id, es);
    }
  }
}
