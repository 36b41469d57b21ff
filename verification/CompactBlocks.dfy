/** Compact blocks end to end, and the object that rebuilds a block. */
module CompactBlocks {
  import opened Wrappers
  import opened CompactSpec

  // ----- What an accepted message leads to -----

  lemma StartInv(c: Compact, sid: nat -> nat, all: seq<Candidate>)
    requires Received(c) && Layout(c).Some? && |Ids(c)| == |c.shortIds|
    ensures var base := Layout(c).value;
      ScanInv(sid, Ids(c), base, all, Scan(base, seq(|base|, _ => false), 0))
  {
    IdsDistinct(c);
    assert Found(Ids(c), Layout(c).value) == {};
  }

  lemma InitInv(c: Compact, sid: nat -> nat, crowded: set<nat>, pool: seq<Candidate>, extra: seq<Candidate>)
    requires Received(c) && Init(c, sid, crowded, pool, extra).Accept?
    ensures Layout(c).Some? && |Ids(c)| == |c.shortIds| && Injective(Ids(c))
    ensures ScanInv(sid, Ids(c), Layout(c).value, pool + extra, Init(c, sid, crowded, pool, extra).scan)
  {
    hide ScanInv, Ids, Search;
    var all, base := pool + extra, Layout(c).value;
    IdsDistinct(c);
    StartInv(c, sid, all);
    var start := Scan(base, seq(|base|, _ => false), 0);
    InvFits(sid, Ids(c), base, all, start);
    assert forall i | 0 <= i < |pool| :: pool[i] == all[i];
    assert forall i | 0 <= i < |extra| :: extra[i] == all[|pool| + i];
    SearchKeeps(sid, Ids(c), base, all, false, start, pool);
    var scan := Search(sid, Ids(c), false, start, pool);
    SearchKeeps(sid, Ids(c), base, all, true, scan, extra);
  }

  /** A slot is filled with a prefilled transaction, or with a candidate that has its short id. */
  lemma SlotContents(c: Compact, sid: nat -> nat, crowded: set<nat>, pool: seq<Candidate>, extra: seq<Candidate>,
      p: nat)
    requires Received(c) && Init(c, sid, crowded, pool, extra).Accept?
    requires p < TxCount(c) && Init(c, sid, crowded, pool, extra).scan.slots[p].Some?
    ensures var tx := Init(c, sid, crowded, pool, extra).scan.slots[p].value;
      || (exists j | 0 <= j < |c.prefilled| :: Position(c, j) == p && c.prefilled[j].tx == tx)
      || (Layout(c).value[p].None? && exists id | id in Ids(c) :: Ids(c)[id] == p && Offered(sid, pool + extra, id, tx))
  {
    hide Ids, Init;
    InitInv(c, sid, crowded, pool, extra);
    var base, slots := Layout(c).value, Init(c, sid, crowded, pool, extra).scan.slots;
    if IsSlot(Ids(c), p) {
      IdsDistinct(c);
    } else {
      PlaceDistinct(c, |c.prefilled|);
    }
  }

  /** If exactly one pool or extra transaction has an id, its slot is filled. */
  lemma OneMatchFills(c: Compact, sid: nat -> nat, crowded: set<nat>, pool: seq<Candidate>, extra: seq<Candidate>,
      i: nat)
    requires Received(c) && Init(c, sid, crowded, pool, extra).Accept? && i < |c.shortIds|
    requires Matching(sid, c.shortIds[i], pool) + Matching(sid, c.shortIds[i], extra) == 1
    ensures c.shortIds[i] in Ids(c) && Init(c, sid, crowded, pool, extra).scan.slots[Ids(c)[c.shortIds[i]]].Some?
  {
    hide ScanInv, Ids, Search;
    var all, base, id := pool + extra, Layout(c).value, c.shortIds[i];
    IdsDistinct(c);
    IdsOnFreeSlots(c);
    StartInv(c, sid, all);
    var start := Scan(base, seq(|base|, _ => false), 0);
    InvFits(sid, Ids(c), base, all, start);
    assert forall j | 0 <= j < |pool| :: pool[j] == all[j];
    assert forall j | 0 <= j < |extra| :: extra[j] == all[|pool| + j];
    SearchKeeps(sid, Ids(c), base, all, false, start, pool);
    SearchFinds(sid, Ids(c), base, all, false, start, pool, id, Matching(sid, id, extra));
    SearchFinds(sid, Ids(c), base, all, true, Search(sid, Ids(c), false, start, pool), extra, id, 0);
  }

  /** The scans of the two sources in an accepted message, and what each of them looked at. */
  ghost function Seen(c: Compact, sid: nat -> nat, crowded: set<nat>, pool: seq<Candidate>, extra: seq<Candidate>)
    : (seq<Candidate>, seq<Candidate>)
    requires Init(c, sid, crowded, pool, extra).Accept?
  {
    IdsInRange(c);
    var base := Layout(c).value;
    var start := Scan(base, seq(|base|, _ => false), 0);
    var pooled := Search(sid, Ids(c), false, start, pool);
    (pool[..Scanned(sid, Ids(c), false, start, pool)], extra[..Scanned(sid, Ids(c), true, pooled, extra)])
  }

  /**
    Exactly what the slot of a short id holds: the only match seen in the pool or, if there was
    none, among the extra transactions, as long as no match seen among the extra ones differs.
  */
  lemma SlotExact(c: Compact, sid: nat -> nat, crowded: set<nat>, pool: seq<Candidate>, extra: seq<Candidate>,
      i: nat)
    requires Received(c) && Init(c, sid, crowded, pool, extra).Accept? && i < |c.shortIds|
    ensures var id := c.shortIds[i];
      var (pooled, extras) := Seen(c, sid, crowded, pool, extra);
      && id in Ids(c)
      && Ids(c)[id] < |Init(c, sid, crowded, pool, extra).scan.slots|
      && Init(c, sid, crowded, pool, extra).scan.slots[Ids(c)[id]] ==
         SlotAfter(sid, id, true, Matching(sid, id, pooled) > 0, SlotAfter(sid, id, false, false, None, pooled), extras)
  {
    hide Ids, Search, Scanned, SlotAfter;
    var base, id := Layout(c).value, c.shortIds[i];
    IdsDistinct(c);
    IdsOnFreeSlots(c);
    IdsInRange(c);
    var start := Scan(base, seq(|base|, _ => false), 0);
    SearchExact(sid, Ids(c), false, start, pool, id);
    NotHadNone(sid, id, pool[..Scanned(sid, Ids(c), false, start, pool)]);
    SearchExact(sid, Ids(c), true, Search(sid, Ids(c), false, start, pool), extra, id);
  }

  lemma NotHadNone(sid: nat -> nat, id: nat, es: seq<Candidate>)
    ensures Matching(sid, id, es) == 0 ==> SlotAfter(sid, id, false, false, None, es) == None
  {
  }

  /** Two matches seen in the pool leave the slot empty, so the transaction is asked for. */
  lemma TwoMatchesAskAgain(c: Compact, sid: nat -> nat, crowded: set<nat>, pool: seq<Candidate>, extra: seq<Candidate>,
      i: nat)
    requires Received(c) && Init(c, sid, crowded, pool, extra).Accept? && i < |c.shortIds|
    requires Matching(sid, c.shortIds[i], Seen(c, sid, crowded, pool, extra).0) >= 2
    ensures c.shortIds[i] in Ids(c) && Ids(c)[c.shortIds[i]] < |Init(c, sid, crowded, pool, extra).scan.slots|
    ensures Init(c, sid, crowded, pool, extra).scan.slots[Ids(c)[c.shortIds[i]]].None?
  {
    hide Init, Seen, Ids;
    SlotExact(c, sid, crowded, pool, extra, i);
  }

  /**
    A malformed message is invalid and blamed on its sender; one whose ids collide or crowd a
    bucket merely fails; any other is accepted.
  */
  lemma StatusExactly(c: Compact, sid: nat -> nat, crowded: set<nat>, pool: seq<Candidate>, extra: seq<Candidate>)
    ensures var r := Init(c, sid, crowded, pool, extra);
      var wellFormed :=
        && c.header.Some? && 0 < |c.shortIds| + |c.prefilled| <= 100000
        && forall j | 0 <= j < |c.prefilled| ::
             !c.prefilled[j].tx.isNull && Position(c, j) <= 65535 && Position(c, j) <= |c.shortIds| + j;
      var clean := NoRepeats(c.shortIds) && forall i | 0 <= i < |c.shortIds| :: c.shortIds[i] !in crowded;
      && (r == Reject(Invalid) <==> !wellFormed)
      && (r == Reject(Failed) <==> wellFormed && !clean)
      && (r.Accept? <==> wellFormed && clean)
  {
    PlaceIff(c, |c.prefilled|);
    if Layout(c).Some? {
      LayoutFree(c);
      MapIdsSize(c.shortIds, Free(Layout(c).value, 0), |c.shortIds|);
      assert c.shortIds[..|c.shortIds|] == c.shortIds;
    }
  }

  // ----- The sender -----

  function HashOf(useWitness: bool, tx: Tx): nat {
    if useWitness then tx.witnessHash else tx.hash
  }

  /** The message for a block: the first transaction in full, the others by their short ids. */
  function FromBlock(header: nat, vtx: seq<Tx>, useWitness: bool, sid: nat -> nat): Compact
    requires |vtx| > 0
  {
    Compact(Some(header),
            seq<nat>(|vtx| - 1, i requires 0 <= i < |vtx| - 1 => sid(HashOf(useWitness, vtx[i + 1]))),
            [Prefilled(0, vtx[0])])
  }

  /** Prefilled transactions are the block's, and the short ids are of the others in order. */
  ghost predicate Describes(c: Compact, vtx: seq<Tx>, useWitness: bool, sid: nat -> nat) {
    && Layout(c).Some? && TxCount(c) == |vtx|
    && (forall p | 0 <= p < |vtx| && Layout(c).value[p].Some? :: Layout(c).value[p].value == vtx[p])
    && |Free(Layout(c).value, 0)| == |c.shortIds|
    && forall i | 0 <= i < |c.shortIds| ::
         && Free(Layout(c).value, 0)[i] < |vtx|
         && c.shortIds[i] == sid(HashOf(useWitness, vtx[Free(Layout(c).value, 0)[i]]))
  }

  /** A message is well formed exactly when the first transaction is not null and the block is not too long. */
  lemma SenderDescribes(header: nat, vtx: seq<Tx>, useWitness: bool, sid: nat -> nat)
    requires |vtx| > 0
    ensures var c := FromBlock(header, vtx, useWitness, sid);
      && (Layout(c).Some? <==> !vtx[0].isNull && |vtx| <= MAX_TRANSACTIONS)
      && (Layout(c).Some? ==> Describes(c, vtx, useWitness, sid))
  {
    var c := FromBlock(header, vtx, useWitness, sid);
    assert Position(c, -1) == -1 && Position(c, 0) == 0;
    assert Place(c, 0) == Some(seq(TxCount(c), _ => None));
    if Layout(c).Some? {
      var base := Layout(c).value;
      LayoutFree(c);
      assert base[0] == Some(vtx[0]) && forall p | 0 < p < |vtx| :: base[p].None?;
      FreeTail(base, 1);
      assert Free(base, 0) == Free(base, 1);
    }
  }

  /** Every transaction but the first is sent as the short id of its hash, with the witness or without. */
  lemma SentById(header: nat, vtx: seq<Tx>, useWitness: bool, sid: nat -> nat, i: nat)
    requires 0 < i < |vtx|
    ensures var c := FromBlock(header, vtx, useWitness, sid);
      |c.shortIds| == |vtx| - 1 && c.shortIds[i - 1] == sid(if useWitness then vtx[i].witnessHash else vtx[i].hash)
  {
    assert FromBlock(header, vtx, useWitness, sid).shortIds[i - 1] == sid(HashOf(useWitness, vtx[i - 1 + 1]));
  }

  lemma {:induction false} FreeTail(slots: Slots, from: nat)
    requires from <= |slots| && forall p | from <= p < |slots| :: slots[p].None?
    ensures Free(slots, from) == seq(|slots| - from, i => from + i)
    decreases |slots| - from
  {
    if from < |slots| { FreeTail(slots, from + 1); }
  }

  /** Every candidate that has one of the ids is the block's own transaction. */
  ghost predicate OwnMatches(c: Compact, vtx: seq<Tx>, sid: nat -> nat, all: seq<Candidate>)
    requires Layout(c).Some? && |Free(Layout(c).value, 0)| == |c.shortIds| && TxCount(c) == |vtx|
  {
    forall e, i | 0 <= e < |all| && 0 <= i < |c.shortIds| && sid(all[e].hash) == c.shortIds[i] ::
      Free(Layout(c).value, 0)[i] < |vtx| && all[e].tx == vtx[Free(Layout(c).value, 0)[i]]
  }

  /**
    Main theorem. If every match in the pool and among the extra transactions is the block's
    own, then the available transactions together with the unavailable ones, in order, are
    the block again.
  */
  lemma Reconstructs(
    c: Compact, vtx: seq<Tx>, useWitness: bool, sid: nat -> nat, crowded: set<nat>, pool: seq<Candidate>,
    extra: seq<Candidate>)
    requires Received(c) && Describes(c, vtx, useWitness, sid) && OwnMatches(c, vtx, sid, pool + extra)
    requires Init(c, sid, crowded, pool, extra).Accept?
    ensures var slots := Init(c, sid, crowded, pool, extra).scan.slots;
      |slots| == |vtx| && Fill(slots, Absent(slots, vtx, |slots|)) == Some(vtx)
  {
    hide Init, Ids, Fill, Free, ScanInv;
    InitInv(c, sid, crowded, pool, extra);
    var slots := Init(c, sid, crowded, pool, extra).scan.slots;
    SlotsKept(c, sid, pool + extra, Init(c, sid, crowded, pool, extra).scan);
    forall p | 0 <= p < |slots| && slots[p].Some? ensures slots[p].value == vtx[p] {
      OwnContents(c, vtx, useWitness, sid, crowded, pool, extra, p);
    }
    FillsAll(slots, vtx);
  }

  lemma FillsAll(slots: Slots, vtx: seq<Tx>)
    requires |slots| == |vtx| && forall p | 0 <= p < |slots| && slots[p].Some? :: slots[p].value == vtx[p]
    ensures Fill(slots, Absent(slots, vtx, |slots|)) == Some(vtx)
  {
    FillRebuilds(slots, vtx, |slots|);
    assert vtx[..|slots|] == vtx;
  }

  lemma SlotsKept(c: Compact, sid: nat -> nat, all: seq<Candidate>, s: Scan)
    requires Layout(c).Some? && ScanInv(sid, Ids(c), Layout(c).value, all, s)
    ensures |s.slots| == TxCount(c)
  {
    LayoutFree(c);
  }

  lemma OwnContents(
    c: Compact, vtx: seq<Tx>, useWitness: bool, sid: nat -> nat, crowded: set<nat>, pool: seq<Candidate>,
    extra: seq<Candidate>,
    p: nat)
    requires Received(c) && Describes(c, vtx, useWitness, sid) && OwnMatches(c, vtx, sid, pool + extra)
    requires Init(c, sid, crowded, pool, extra).Accept? && |Init(c, sid, crowded, pool, extra).scan.slots| == |vtx|
    requires p < |vtx| && Init(c, sid, crowded, pool, extra).scan.slots[p].Some?
    ensures Init(c, sid, crowded, pool, extra).scan.slots[p].value == vtx[p]
  {
    hide Init, Ids, Free;
    SlotContents(c, sid, crowded, pool, extra, p);
    InitInv(c, sid, crowded, pool, extra);
    var tx := Init(c, sid, crowded, pool, extra).scan.slots[p].value;
    if j :| 0 <= j < |c.prefilled| && Position(c, j) == p && c.prefilled[j].tx == tx {
      PlaceDistinct(c, |c.prefilled|);
    } else {
      var id :| id in Ids(c) && Ids(c)[id] == p && Offered(sid, pool + extra, id, tx);
      var i := SlotOfId(c, id);
      var e :| 0 <= e < |pool + extra| && sid((pool + extra)[e].hash) == id && (pool + extra)[e].tx == tx;
    }
  }

  /** The sender's message is accepted exactly when no bucket is crowded and no short id repeats. */
  lemma SenderAccepted(
    header: nat, vtx: seq<Tx>, useWitness: bool, sid: nat -> nat, crowded: set<nat>, pool: seq<Candidate>,
    extra: seq<Candidate>)
    requires 0 < |vtx| <= 65535 && !vtx[0].isNull
    ensures var c := FromBlock(header, vtx, useWitness, sid);
      && Received(c)
      && (Init(c, sid, crowded, pool, extra).Accept? <==>
          NoRepeats(c.shortIds) && forall i | 0 <= i < |c.shortIds| :: c.shortIds[i] !in crowded)
  {
    var c := FromBlock(header, vtx, useWitness, sid);
    SenderDescribes(header, vtx, useWitness, sid);
    LayoutFree(c);
    MapIdsSize(c.shortIds, Free(Layout(c).value, 0), |c.shortIds|);
    assert c.shortIds[..|c.shortIds|] == c.shortIds;
  }

  // ----- The object -----

  datatype Check = Passed | Mutated | Rejected

  class PartiallyDownloadedBlock {
    var header: Option<nat>
    var txnAvailable: Slots
    var mempoolCount: int
    var prefilledCount: nat

    constructor ()
      ensures header == None && txnAvailable == [] && mempoolCount == 0
    {
      header, txnAvailable, mempoolCount, prefilledCount := None, [], 0, 0;
    }

    /** After Ok the object holds what Init says. Any other status is the one Init rejects with. */
    method InitData(c: Compact, sid: nat -> nat, crowded: set<nat>, pool: seq<Candidate>, extra: seq<Candidate>)
      returns (status: Status)
      requires header.None? && txnAvailable == [] && mempoolCount == 0
      modifies this
      ensures match Init(c, sid, crowded, pool, extra)
        case Reject(expected) => status == expected
        case Accept(scan) =>
          status == Ok && header == c.header && txnAvailable == scan.slots && mempoolCount == scan.count
    {
      hide Search, MapIds, Free, Place;
      if c.header.None? || (c.shortIds == [] && c.prefilled == []) { return Invalid; }
      if |c.shortIds| + |c.prefilled| > MAX_TRANSACTIONS { return Invalid; }
      header := c.header;
      var placed := PlacePrefilled(c);
      if !placed { return Invalid; }
      LayoutFree(c);
      IdsInRange(c);
      var ids := IndexShortIds(c, crowded);
      if ids.None? || |ids.value| != |c.shortIds| { return Failed; }
      assert ids.value == Ids(c) && |txnAvailable| == TxCount(c);
      var have: seq<bool> := seq(|txnAvailable|, _ => false);
      assert ScanFits(ids.value, Scan(txnAvailable, have, 0));
      have := ScanCandidates(sid, ids.value, false, have, pool);
      have := ScanCandidates(sid, ids.value, true, have, extra);
      return Ok;
    }

    method PlacePrefilled(c: Compact) returns (ok: bool)
      requires TxCount(c) <= MAX_TRANSACTIONS
      modifies this`txnAvailable, this`prefilledCount
      ensures ok <==> Place(c, |c.prefilled|).Some?
      ensures ok ==> txnAvailable == Place(c, |c.prefilled|).value
    {
      txnAvailable := seq(TxCount(c), _ => None);
      var last := -1;
      var i := 0;
      while i < |c.prefilled|
        invariant i <= |c.prefilled| && last == Position(c, i - 1) && Place(c, i) == Some(txnAvailable)
      {
        last := last + c.prefilled[i].index + 1;
        PositionRises(c, -1, i);
        if c.prefilled[i].tx.isNull || last > 65535 || last > |c.shortIds| + i {
          Unplaceable(c, i + 1, |c.prefilled|);
          return false;
        }
        txnAvailable := txnAvailable[last := Some(c.prefilled[i].tx)];
        i := i + 1;
      }
      prefilledCount := |c.prefilled|;
      return true;
    }

    /** The scan for the next empty slot never runs off the end. */
    method NextEmpty(from: nat) returns (p: nat)
      requires from <= |txnAvailable| && Free(txnAvailable, from) != []
      ensures from <= p < |txnAvailable| && Free(txnAvailable, from) == [p] + Free(txnAvailable, p + 1)
    {
      hide Free;
      p := from;
      FreeHere(txnAvailable, p);
      while txnAvailable[p].Some?
        invariant from <= p < |txnAvailable| && Free(txnAvailable, p) == Free(txnAvailable, from)
        decreases |txnAvailable| - p
      {
        FreeHere(txnAvailable, p);
        p := p + 1;
        FreeHere(txnAvailable, p);
      }
      FreeHere(txnAvailable, p);
    }

    method IndexShortIds(c: Compact, crowded: set<nat>) returns (ids: Option<map<nat, nat>>)
      requires |Free(txnAvailable, 0)| == |c.shortIds|
      ensures ids.None? <==> exists i | 0 <= i < |c.shortIds| :: c.shortIds[i] in crowded
      ensures ids.Some? ==> ids.value == MapIds(c.shortIds, Free(txnAvailable, 0), |c.shortIds|)
    {
      hide MapIds, Free;
      ghost var free := Free(txnAvailable, 0);
      var index: map<nat, nat> := map[];
      NothingMapped(c.shortIds, free);
      var offset := 0;
      var i := 0;
      while i < |c.shortIds|
        invariant i <= |c.shortIds| && 0 <= offset && i + offset <= |txnAvailable|
        invariant Free(txnAvailable, i + offset) == free[i..] && index == MapIds(c.shortIds, free, i)
        invariant forall j | 0 <= j < i :: c.shortIds[j] !in crowded
      {
        var p := NextEmpty(i + offset);
        offset := p - i;
        assert free[i..][0] == free[i] == p && free[i..][1..] == free[i + 1..];
        OneMapped(c.shortIds, free, i);
        index := index[c.shortIds[i] := (i + offset) % 65536];
        if c.shortIds[i] in crowded { return None; }
        i := i + 1;
      }
      return Some(index);
    }

    method ScanCandidates(sid: nat -> nat, ids: map<nat, nat>, extra: bool, had: seq<bool>, es: seq<Candidate>)
      returns (have: seq<bool>)
      requires ScanFits(ids, Scan(txnAvailable, had, mempoolCount))
      modifies this`txnAvailable, this`mempoolCount
      ensures Scan(txnAvailable, have, mempoolCount) ==
        Search(sid, ids, extra, old(Scan(txnAvailable, had, mempoolCount)), es)
    {
      have := had;
      var slots, count := txnAvailable, mempoolCount;
      ghost var goal := Search(sid, ids, extra, Scan(slots, have, count), es);
      var i := 0;
      while i < |es|
        invariant i <= |es| && ScanFits(ids, Scan(slots, have, count))
        invariant Search(sid, ids, extra, Scan(slots, have, count), es[i..]) == goal
        modifies {}
      {
        assert es[i..][0] == es[i] && es[i..][1..] == es[i + 1..];
        var id := sid(es[i].hash);
        if id in ids {
          var p := ids[id];
          if !have[p] {
            slots, have, count := slots[p := Some(es[i].tx)], have[p := true], count + 1;
          } else if slots[p].Some? && (!extra || slots[p].value.witnessHash != es[i].tx.witnessHash) {
            slots, count := slots[p := None], count - 1;
          }
        }
        if count == |ids| { break; }
        i := i + 1;
      }
      txnAvailable, mempoolCount := slots, count;
    }

    /** Hands out the block once; after too few transactions the slots read so far are gone. */
    method FillBlock(missing: seq<Tx>, check: seq<Tx> -> Check) returns (status: Status, vtx: seq<Tx>)
      requires header.Some?
      modifies this
      ensures match Fill(old(txnAvailable), missing)
        case None => status == Invalid
        case Some(block) =>
          && vtx == block
          && status == (match check(block) case Passed => Ok case Mutated => Failed case Rejected => CheckBlockFailed)
      ensures |missing| >= Empty(old(txnAvailable)) ==> header.None? && txnAvailable == []
    {
      var slots := txnAvailable;
      var used := 0;
      vtx := [];
      var i := 0;
      while i < |slots|
        invariant i <= |slots| && FillTo(slots, missing, i) == Some((vtx, used))
        invariant slots == old(txnAvailable) && |txnAvailable| == |slots|
      {
        if slots[i].None? {
          if |missing| <= used {
            TooFew(slots, missing, i + 1, |slots|);
            return Invalid, vtx;
          }
          vtx := vtx + [missing[used]];
          used := used + 1;
        } else {
          vtx := vtx + [slots[i].value];
          txnAvailable := txnAvailable[i := None];
        }
        i := i + 1;
      }
      header := None;
      txnAvailable := [];
      if |missing| != used { return Invalid, vtx; }
      match check(vtx) {
        case Passed => return Ok, vtx;
        case Mutated => return Failed, vtx;
        case Rejected => return CheckBlockFailed, vtx;
      }
    }
  }

  lemma {:induction false} Unplaceable(c: Compact, k: nat, n: nat)
    requires k <= n <= |c.prefilled| && Place(c, k).None?
    ensures Place(c, n).None?
  {
    if k < n { Unplaceable(c, k, n - 1); }
  }

  lemma {:induction false} TooFew(slots: Slots, missing: seq<Tx>, k: nat, n: nat)
    requires k <= n <= |slots| && FillTo(slots, missing, k).None?
    ensures FillTo(slots, missing, n).None? && |missing| < Empty(slots)
    decreases n
  {
    if k < n {
      TooFew(slots, missing, k, n - 1);
    } else {
      FillToIff(slots, missing, k);
      EmptyPrefix(slots, k);
    }
  }

  lemma {:induction false} EmptyPrefix(slots: Slots, k: nat)
    requires k <= |slots|
    ensures Empty(slots[..k]) <= Empty(slots)
    decreases |slots|
  {
    if k < |slots| {
      EmptyPrefix(slots[..|slots| - 1], k);
      assert slots[..|slots| - 1][..k] == slots[..k];
    } else {
      assert slots[..k] == slots;
    }
  }

  lemma FreeHere(slots: Slots, from: nat)
    requires from <= |slots|
    ensures Free(slots, from) ==
      if from == |slots| then []
      else if slots[from].None? then [from] + Free(slots, from + 1)
      else Free(slots, from + 1)
  {
  }

  lemma NothingMapped(ids: seq<nat>, free: seq<nat>)
    requires |ids| <= |free|
    ensures MapIds(ids, free, 0) == map[]
  {
  }

  lemma OneMapped(ids: seq<nat>, free: seq<nat>, i: nat)
    requires i < |ids| <= |free|
    ensures MapIds(ids, free, i + 1) == MapIds(ids, free, i)[ids[i] := free[i] % 65536]
  {
  }
}
