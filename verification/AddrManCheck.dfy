/**
  The consistency check that the address manager can run on itself, and what it decides.

  Check walks the tables the way the code does, taking entries out of working sets as it
  finds them. It returns 0 exactly on the states Sound describes, and every state that
  satisfies the invariant is one of them; any other result names a fault of the first pass
  that finds one.
*/
module AddrManCheck {
  import opened AddrManSpec

  /** Indexing the code's map: an address that is missing reads as id 0. */
  function IdAt(s: State, net: NetAddr): int {
    if net in s.mapAddr then s.mapAddr[net] else 0
  }

  /** What the first loop asks of one entry. */
  predicate EntrySound(s: State, n: int)
    requires n in s.mapInfo
  {
    var info := s.mapInfo[n];
    && (if info.inTried then info.lastSuccess != 0 && info.refCount == 0
        else 0 < info.refCount <= NEW_BUCKETS_PER_ADDRESS)
    && IdAt(s, info.service.net) == n
    && 0 <= info.randomPos < |s.vRandom| && s.vRandom[info.randomPos] == n
    && info.lastTry >= 0 && info.lastSuccess >= 0
  }

  /** What the second pass asks of a tried slot. */
  predicate TriedSlotSound(e: Env, s: State, b: nat, i: nat)
    requires Shaped(s.vvTried, TRIED_BUCKET_COUNT) && b < TRIED_BUCKET_COUNT && i < BUCKET_SIZE
  {
    var id := s.vvTried[b][i];
    id != -1 ==>
      && id in s.mapInfo && s.mapInfo[id].inTried
      && e.TriedBucket(s.mapInfo[id].service) == b
      && e.Position(false, b, s.mapInfo[id].service) == i
  }

  /** What the third pass asks of a new slot by itself. */
  predicate NewSlotSound(e: Env, s: State, b: nat, i: nat)
    requires Shaped(s.vvNew, NEW_BUCKET_COUNT) && b < NEW_BUCKET_COUNT && i < BUCKET_SIZE
  {
    var id := s.vvNew[b][i];
    id != -1 ==> id in s.mapInfo && !s.mapInfo[id].inTried && e.Position(true, b, s.mapInfo[id].service) == i
  }

  /** How many new slots hold an id; -1 marks an empty slot and is held by none. */
  ghost function References(e: Env, s: State, id: int): nat
    requires Shaped(s.vvNew, NEW_BUCKET_COUNT) && id in s.mapInfo
  {
    if id == -1 then 0 else |NewBuckets(e, s.vvNew, s.mapInfo[id].service, id)|
  }

  /** The tests of the check, in the order it makes them. */
  ghost predicate Passes(e: Env, s: State, test: nat)
    requires Shaped(s.vvTried, TRIED_BUCKET_COUNT) && Shaped(s.vvNew, NEW_BUCKET_COUNT)
  {
    match test
    case 0 => |s.vRandom| == s.nTried + s.nNew
    case 1 => forall n | n in s.mapInfo :: EntrySound(s, n)
    case 2 => |TriedIds(s)| == s.nTried
    case 3 => |NewIds(s)| == s.nNew
    case 4 => forall b: nat, i: nat | b < TRIED_BUCKET_COUNT && i < BUCKET_SIZE :: TriedSlotSound(e, s, b, i)
    case 5 =>
      && (forall b: nat, i: nat | b < NEW_BUCKET_COUNT && i < BUCKET_SIZE :: NewSlotSound(e, s, b, i))
      && (forall id | id in NewIds(s) :: References(e, s, id) <= s.mapInfo[id].refCount)
    case 6 => Lost(e, s) == {}
    case 7 => forall id | id in NewIds(s) :: References(e, s, id) >= s.mapInfo[id].refCount
    case 8 => e.nKey != 0
    case _ => true
  }

  /** The tried entries that are not in their slot. */
  ghost function Lost(e: Env, s: State): set<int>
    requires Shaped(s.vvTried, TRIED_BUCKET_COUNT)
  {
    set id | id in TriedIds(s) && (id == -1 || TriedSlot(e, s, s.mapInfo[id].service) != id)
  }

  /** The states the check accepts. */
  ghost predicate Sound(e: Env, s: State)
    requires Shaped(s.vvTried, TRIED_BUCKET_COUNT) && Shaped(s.vvNew, NEW_BUCKET_COUNT)
  {
    forall test: nat | test < 9 :: Passes(e, s, test)
  }

  /** The test that a result comes from. */
  function TestOf(err: int): nat {
    if err == -7 then 0
    else if err in {-1, -2, -3, -4, -5, -14, -6, -8} then 1
    else if err == -9 then 2
    else if err == -10 then 3
    else if err in {-11, -17, -18} then 4
    else if err in {-12, -19} then 5
    else if err == -13 then 6
    else if err == -15 then 7
    else if err == -16 then 8
    else 9
  }

  /** The fault of an entry that a result of the first loop names. */
  predicate EntryFault(s: State, n: int, err: int)
    requires n in s.mapInfo
  {
    var info := s.mapInfo[n];
    if err == -1 then info.inTried && info.lastSuccess == 0
    else if err == -2 then info.inTried && info.refCount != 0
    else if err == -3 then !info.inTried && !(0 <= info.refCount <= NEW_BUCKETS_PER_ADDRESS)
    else if err == -4 then !info.inTried && info.refCount == 0
    else if err == -5 then IdAt(s, info.service.net) != n
    else if err == -14 then !(0 <= info.randomPos < |s.vRandom|) || s.vRandom[info.randomPos] != n
    else if err == -6 then info.lastTry < 0
    else err == -8 && info.lastSuccess < 0
  }

  /** The fault of a tried slot: its id is no tried entry or stood in its own slot before, or belongs elsewhere. */
  ghost predicate TriedSlotFault(e: Env, s: State, b: nat, i: nat, err: int)
    requires Shaped(s.vvTried, TRIED_BUCKET_COUNT) && b < TRIED_BUCKET_COUNT && i < BUCKET_SIZE
  {
    var id := s.vvTried[b][i];
    && id != -1
    && if err == -11 then
         || id !in TriedIds(s)
         || var a := s.mapInfo[id].service;
            Before(b, i, e.TriedBucket(a), e.Position(false, e.TriedBucket(a), a)) && TriedSlot(e, s, a) == id
       else if err == -17 then id in TriedIds(s) && e.TriedBucket(s.mapInfo[id].service) != b
       else err == -18 && id in TriedIds(s) && e.Position(false, b, s.mapInfo[id].service) != i
  }

  /** The fault of a new slot: its id is no new entry, has too many references or belongs elsewhere. */
  ghost predicate NewSlotFault(e: Env, s: State, b: nat, i: nat, err: int)
    requires Shaped(s.vvNew, NEW_BUCKET_COUNT) && b < NEW_BUCKET_COUNT && i < BUCKET_SIZE
  {
    var id := s.vvNew[b][i];
    && id != -1
    && if err == -12 then id in NewIds(s) && e.Position(true, b, s.mapInfo[id].service) == i
                          ==> References(e, s, id) > s.mapInfo[id].refCount
       else err == -19 && id in NewIds(s) && e.Position(true, b, s.mapInfo[id].service) != i
  }

  /** What a result says is wrong. */
  ghost predicate Fault(e: Env, s: State, err: int)
    requires Shaped(s.vvTried, TRIED_BUCKET_COUNT) && Shaped(s.vvNew, NEW_BUCKET_COUNT)
  {
    match TestOf(err)
    case 1 => exists n | n in s.mapInfo :: EntryFault(s, n, err)
    case 4 => exists b: nat, i: nat | b < TRIED_BUCKET_COUNT && i < BUCKET_SIZE :: TriedSlotFault(e, s, b, i, err)
    case 5 => exists b: nat, i: nat | b < NEW_BUCKET_COUNT && i < BUCKET_SIZE :: NewSlotFault(e, s, b, i, err)
    case 9 => false
    case test => !Passes(e, s, test)
  }

  /** The invariant that every operation keeps passes the check. */
  lemma InvIsSound(e: Env, s: State)
    requires Inv(e, s) && e.nKey != 0
    ensures Sound(e, s)
  {
    forall n | n in s.mapInfo
      ensures EntrySound(s, n)
      ensures n in TriedIds(s) ==> TriedSlot(e, s, s.mapInfo[n].service) == n
      ensures n in NewIds(s) ==> References(e, s, n) == s.mapInfo[n].refCount
    {
      assert InfoOk(e, s, {}, n);
    }
    assert Lost(e, s) == {};
  }

  lemma NonEmpty(ids: set<int>)
    requires ids != {}
    ensures exists id :: id in ids
  {
    assert (forall id :: id !in ids) ==> ids == {};
  }

  /** The first loop at one entry. */
  method CheckEntry(s: State, n: int) returns (err: int)
    requires n in s.mapInfo
    ensures err == 0 <==> EntrySound(s, n)
    ensures err != 0 ==> TestOf(err) == 1 && EntryFault(s, n, err)
  {
    var info := s.mapInfo[n];
    if info.inTried {
      if info.lastSuccess == 0 { return -1; }
      if info.refCount != 0 { return -2; }
    } else {
      if info.refCount < 0 || info.refCount > NEW_BUCKETS_PER_ADDRESS { return -3; }
      if info.refCount == 0 { return -4; }
    }
    if IdAt(s, info.service.net) != n { return -5; }
    if info.randomPos < 0 || info.randomPos >= |s.vRandom| || s.vRandom[info.randomPos] != n { return -14; }
    if info.lastTry < 0 { return -6; }
    if info.lastSuccess < 0 { return -8; }
    return 0;
  }

  /** The first loop: every entry by itself, and the ids sorted by table. */
  method CheckEntries(s: State) returns (err: int, tried: set<int>, remaining: map<int, int>)
    ensures err == 0 <==> forall n | n in s.mapInfo :: EntrySound(s, n)
    ensures err != 0 ==> TestOf(err) == 1 && exists n | n in s.mapInfo :: EntryFault(s, n, err)
    ensures err == 0 ==> tried == TriedIds(s)
    ensures err == 0 ==>
      remaining.Keys == NewIds(s) && forall n | n in remaining :: remaining[n] == s.mapInfo[n].refCount
  {
    tried, remaining := {}, map[];
    var todo := s.mapInfo.Keys;
    while todo != {}
      invariant todo <= s.mapInfo.Keys
      invariant forall n | n in s.mapInfo && n !in todo :: EntrySound(s, n)
      invariant tried == TriedIds(s) - todo
      invariant remaining.Keys == NewIds(s) - todo && forall n | n in remaining :: remaining[n] == s.mapInfo[n].refCount
      decreases todo
    {
      NonEmpty(todo);
      var n :| n in todo;
      todo := todo - {n};
      err := CheckEntry(s, n);
      if err != 0 { return; }
      if s.mapInfo[n].inTried {
        tried := tried + {n};
      } else {
        remaining := remaining[n := s.mapInfo[n].refCount];
      }
    }
    err := 0;
  }

  /** The slots a pass has seen when it stands at (b, i). */
  ghost predicate Before(b: nat, i: nat, b': nat, i': nat) {
    b' < b || (b' == b && i' < i)
  }

  /** The tried ids whose slot has not been seen yet. */
  ghost function Unseen(e: Env, s: State, b: nat, i: nat): set<int>
    requires Shaped(s.vvTried, TRIED_BUCKET_COUNT)
  {
    set id | id in TriedIds(s) &&
      var a := s.mapInfo[id].service;
      id == -1 || !(TriedSlot(e, s, a) == id && Before(b, i, e.TriedBucket(a), e.Position(false, e.TriedBucket(a), a)))
  }

  /** The second pass: tried slots, with the ids found taken out of the working set. */
  method CheckTried(e: Env, s: State, ids: set<int>) returns (err: int, tried: set<int>)
    requires Shaped(s.vvTried, TRIED_BUCKET_COUNT) && ids == TriedIds(s)
    ensures err == 0 <==>
      forall b: nat, i: nat | b < TRIED_BUCKET_COUNT && i < BUCKET_SIZE :: TriedSlotSound(e, s, b, i)
    ensures err != 0 ==> TestOf(err) == 4
    ensures err != 0 ==>
      exists b: nat, i: nat | b < TRIED_BUCKET_COUNT && i < BUCKET_SIZE :: TriedSlotFault(e, s, b, i, err)
    ensures err == 0 ==> tried == Lost(e, s)
  {
    tried := ids;
    assert tried == Unseen(e, s, 0, 0);
    var b: nat := 0;
    while b < TRIED_BUCKET_COUNT
      invariant b <= TRIED_BUCKET_COUNT
      invariant forall b': nat, i': nat | b' < b && i' < BUCKET_SIZE :: TriedSlotSound(e, s, b', i')
      invariant tried == Unseen(e, s, b, 0)
    {
      var i: nat := 0;
      while i < BUCKET_SIZE
        invariant i <= BUCKET_SIZE
        invariant forall b': nat, i': nat | b' < b && i' < BUCKET_SIZE :: TriedSlotSound(e, s, b', i')
        invariant forall i': nat | i' < i :: TriedSlotSound(e, s, b, i')
        invariant tried == Unseen(e, s, b, i)
      {
        err, tried := CheckTriedSlot(e, s, tried, b, i);
        if err != 0 { return; }
        i := i + 1;
      }
      assert Unseen(e, s, b, BUCKET_SIZE) == Unseen(e, s, b + 1, 0);
      b := b + 1;
    }
    err := 0;
    assert tried == Lost(e, s);
  }

  /** The second pass at one slot. */
  method CheckTriedSlot(e: Env, s: State, tried: set<int>, b: nat, i: nat) returns (err: int, left: set<int>)
    requires Shaped(s.vvTried, TRIED_BUCKET_COUNT) && b < TRIED_BUCKET_COUNT && i < BUCKET_SIZE
    requires tried == Unseen(e, s, b, i)
    ensures err == 0 <==> TriedSlotSound(e, s, b, i)
    ensures err != 0 ==> TestOf(err) == 4 && TriedSlotFault(e, s, b, i, err)
    ensures err == 0 ==> left == Unseen(e, s, b, i + 1)
  {
    left := tried;
    var id := s.vvTried[b][i];
    if id != -1 {
      if id !in tried { return -11, left; }
      if e.TriedBucket(s.mapInfo[id].service) != b { return -17, left; }
      if e.Position(false, b, s.mapInfo[id].service) != i { return -18, left; }
      left := left - {id};
    }
    UnseenStep(e, s, b, i);
    return 0, left;
  }

  lemma UnseenStep(e: Env, s: State, b: nat, i: nat)
    requires Shaped(s.vvTried, TRIED_BUCKET_COUNT) && b < TRIED_BUCKET_COUNT && i < BUCKET_SIZE
    requires TriedSlotSound(e, s, b, i)
    ensures Unseen(e, s, b, i + 1) ==
      if s.vvTried[b][i] == -1 then Unseen(e, s, b, i) else Unseen(e, s, b, i) - {s.vvTried[b][i]}
  {
  }

  /** The new buckets of an id that the third pass has seen when it stands at (b, i). */
  ghost function Seen(e: Env, s: State, id: int, b: nat, i: nat): set<nat>
    requires Shaped(s.vvNew, NEW_BUCKET_COUNT) && id in s.mapInfo
  {
    if id == -1 then {} else
    set c | c in NewBuckets(e, s.vvNew, s.mapInfo[id].service, id)
            && Before(b, i, c, e.Position(true, c, s.mapInfo[id].service))
  }

  /** The working map: references of each new id that have not been found yet. */
  ghost predicate CountsLeft(e: Env, s: State, remaining: map<int, int>, b: nat, i: nat)
    requires Shaped(s.vvNew, NEW_BUCKET_COUNT)
  {
    && (forall id | id in remaining ::
        id in NewIds(s) && remaining[id] == s.mapInfo[id].refCount - |Seen(e, s, id, b, i)| > 0)
    && (forall id | id in NewIds(s) && id !in remaining :: s.mapInfo[id].refCount == |Seen(e, s, id, b, i)|)
  }

  /** One slot seen: its bucket joins the seen buckets of the id it holds and of no other. */
  lemma SeenStep(e: Env, s: State, id: int, b: nat, i: nat)
    requires Shaped(s.vvNew, NEW_BUCKET_COUNT) && id in s.mapInfo && b < NEW_BUCKET_COUNT && i < BUCKET_SIZE
    requires NewSlotSound(e, s, b, i)
    ensures |Seen(e, s, id, b, i + 1)| == |Seen(e, s, id, b, i)| + if id != -1 && s.vvNew[b][i] == id then 1 else 0
  {
    if id != -1 {
      var a := s.mapInfo[id].service;
      var all := NewBuckets(e, s.vvNew, a, id);
      assert b in all && e.Position(true, b, a) == i <==> s.vvNew[b][i] == id;
      var seen, next := Seen(e, s, id, b, i), Seen(e, s, id, b, i + 1);
      assert forall c :: c in next <==> c in seen || (c == b && c in all && e.Position(true, c, a) == i);
      assert next == if s.vvNew[b][i] == id then seen + {b} else seen;
    }
  }

  /** A further slot for an id whose references have all been found is one too many. */
  lemma OneTooMany(e: Env, s: State, id: int, b: nat, i: nat)
    requires Shaped(s.vvNew, NEW_BUCKET_COUNT) && id in s.mapInfo && b < NEW_BUCKET_COUNT && i < BUCKET_SIZE
    requires id != -1 && s.vvNew[b][i] == id && e.Position(true, b, s.mapInfo[id].service) == i
    ensures |Seen(e, s, id, b, i)| < References(e, s, id)
  {
    var all := NewBuckets(e, s.vvNew, s.mapInfo[id].service, id);
    var seen := Seen(e, s, id, b, i);
    assert b in all && b !in seen;
    assert all == seen + (all - seen);
  }

  lemma SeenRow(e: Env, s: State, id: int, b: nat)
    requires Shaped(s.vvNew, NEW_BUCKET_COUNT) && id in s.mapInfo
    ensures Seen(e, s, id, b, BUCKET_SIZE) == Seen(e, s, id, b + 1, 0)
    ensures Seen(e, s, id, 0, 0) == {}
    ensures |Seen(e, s, id, NEW_BUCKET_COUNT, 0)| == References(e, s, id)
  {
    if id != -1 {
      assert Seen(e, s, id, NEW_BUCKET_COUNT, 0) == NewBuckets(e, s.vvNew, s.mapInfo[id].service, id);
    }
  }

  /** The third pass at one slot. */
  method CheckNewSlot(e: Env, s: State, remaining: map<int, int>, b: nat, i: nat)
    returns (err: int, left: map<int, int>)
    requires Shaped(s.vvNew, NEW_BUCKET_COUNT) && b < NEW_BUCKET_COUNT && i < BUCKET_SIZE
    requires CountsLeft(e, s, remaining, b, i)
    ensures err == 0 ==> NewSlotSound(e, s, b, i) && CountsLeft(e, s, left, b, i + 1)
    ensures err != 0 ==> TestOf(err) == 5 && NewSlotFault(e, s, b, i, err)
  {
    left := remaining;
    var id := s.vvNew[b][i];
    if id != -1 {
      if id !in remaining {
        if id in NewIds(s) && e.Position(true, b, s.mapInfo[id].service) == i { OneTooMany(e, s, id, b, i); }
        return -12, left;
      }
      if e.Position(true, b, s.mapInfo[id].service) != i { return -19, left; }
      left := if remaining[id] == 1 then remaining - {id} else remaining[id := remaining[id] - 1];
    }
    forall x | x in NewIds(s)
      ensures |Seen(e, s, x, b, i + 1)| == |Seen(e, s, x, b, i)| + if x != -1 && s.vvNew[b][i] == x then 1 else 0
    {
      SeenStep(e, s, x, b, i);
    }
    return 0, left;
  }

  /** The third pass: new slots, counting down the references of each id. */
  method CheckNew(e: Env, s: State, counts: map<int, int>) returns (err: int, remaining: map<int, int>)
    requires Shaped(s.vvTried, TRIED_BUCKET_COUNT) && Shaped(s.vvNew, NEW_BUCKET_COUNT)
    requires counts.Keys == NewIds(s) && forall n | n in counts :: counts[n] == s.mapInfo[n].refCount > 0
    ensures err == 0 <==> Passes(e, s, 5)
    ensures err != 0 ==> TestOf(err) == 5
    ensures err != 0 ==>
      exists b: nat, i: nat | b < NEW_BUCKET_COUNT && i < BUCKET_SIZE :: NewSlotFault(e, s, b, i, err)
    ensures err == 0 ==> (remaining.Keys == {} <==> Passes(e, s, 7))
  {
    hide Passes, CountsLeft, NewSlotFault, NewSlotSound;
    remaining := counts;
    CountsStart(e, s, counts);
    var b: nat := 0;
    while b < NEW_BUCKET_COUNT
      invariant b <= NEW_BUCKET_COUNT
      invariant forall c: nat, j: nat | c < b && j < BUCKET_SIZE :: NewSlotSound(e, s, c, j)
      invariant CountsLeft(e, s, remaining, b, 0)
    {
      var i: nat := 0;
      while i < BUCKET_SIZE
        invariant i <= BUCKET_SIZE
        invariant forall c: nat, j: nat | c < b && j < BUCKET_SIZE :: NewSlotSound(e, s, c, j)
        invariant forall j: nat | j < i :: NewSlotSound(e, s, b, j)
        invariant CountsLeft(e, s, remaining, b, i)
      {
        err, remaining := CheckNewSlot(e, s, remaining, b, i);
        if err != 0 {
          FaultFails(e, s, b, i, err);
          return;
        }
        i := i + 1;
      }
      CountsNextRow(e, s, remaining, b);
      b := b + 1;
    }
    err := 0;
    CountsDecide(e, s, remaining);
  }

  lemma CountsStart(e: Env, s: State, counts: map<int, int>)
    requires Shaped(s.vvNew, NEW_BUCKET_COUNT)
    requires counts.Keys == NewIds(s) && forall n | n in counts :: counts[n] == s.mapInfo[n].refCount > 0
    ensures CountsLeft(e, s, counts, 0, 0)
  {
    forall id | id in NewIds(s) ensures Seen(e, s, id, 0, 0) == {} { SeenRow(e, s, id, 0); }
  }

  lemma CountsNextRow(e: Env, s: State, remaining: map<int, int>, b: nat)
    requires Shaped(s.vvNew, NEW_BUCKET_COUNT) && CountsLeft(e, s, remaining, b, BUCKET_SIZE)
    ensures CountsLeft(e, s, remaining, b + 1, 0)
  {
    forall id | id in NewIds(s) ensures Seen(e, s, id, b, BUCKET_SIZE) == Seen(e, s, id, b + 1, 0) {
      SeenRow(e, s, id, b);
    }
  }

  lemma FaultFails(e: Env, s: State, b: nat, i: nat, err: int)
    requires Shaped(s.vvTried, TRIED_BUCKET_COUNT) && Shaped(s.vvNew, NEW_BUCKET_COUNT)
    requires b < NEW_BUCKET_COUNT && i < BUCKET_SIZE && NewSlotFault(e, s, b, i, err)
    ensures !Passes(e, s, 5)
  {
    assert !NewSlotSound(e, s, b, i) || s.vvNew[b][i] in NewIds(s);
  }

  /** When every slot has been seen, what is left of the working map decides. */
  lemma CountsDecide(e: Env, s: State, remaining: map<int, int>)
    requires Shaped(s.vvTried, TRIED_BUCKET_COUNT) && Shaped(s.vvNew, NEW_BUCKET_COUNT)
    requires CountsLeft(e, s, remaining, NEW_BUCKET_COUNT, 0)
    requires forall b: nat, i: nat | b < NEW_BUCKET_COUNT && i < BUCKET_SIZE :: NewSlotSound(e, s, b, i)
    ensures Passes(e, s, 5)
    ensures remaining.Keys == {} <==> Passes(e, s, 7)
  {
    forall id | id in NewIds(s)
      ensures References(e, s, id) <= s.mapInfo[id].refCount
      ensures id in remaining <==> References(e, s, id) < s.mapInfo[id].refCount
    {
      SeenRow(e, s, id, 0);
    }
    if remaining.Keys != {} { NonEmpty(remaining.Keys); }
  }

  /** Check_: 0 exactly on the sound states; otherwise a fault that the first failing test found. */
  method Check(e: Env, s: State) returns (err: int)
    requires Shaped(s.vvTried, TRIED_BUCKET_COUNT) && Shaped(s.vvNew, NEW_BUCKET_COUNT)
    ensures err == 0 <==> Sound(e, s)
    ensures forall test | 0 <= test < TestOf(err) :: Passes(e, s, test)
    ensures err != 0 ==> !Passes(e, s, TestOf(err)) && Fault(e, s, err)
  {
    var tried, counts, lost, remaining;
    if |s.vRandom| != s.nTried + s.nNew { assert !Passes(e, s, 0); return -7; }
    err, tried, counts := CheckEntries(s);
    if err != 0 { assert !Passes(e, s, 1); return; }
    if |tried| != s.nTried { assert !Passes(e, s, 2); return -9; }
    if |counts| != s.nNew { assert !Passes(e, s, 3); return -10; }
    err, lost := CheckTried(e, s, tried);
    if err != 0 { assert !Passes(e, s, 4); return; }
    err, remaining := CheckNew(e, s, counts);
    if err != 0 { assert !Passes(e, s, 5); return; }
    if lost != {} { assert !Passes(e, s, 6); return -13; }
    if remaining.Keys != {} { assert !Passes(e, s, 7); return -15; }
    if e.nKey == 0 { assert !Passes(e, s, 8); return -16; }
    return 0;
  }
}
