/** Every step on the tables keeps them consistent. */
module AddrManLemmas {
  import opened AddrManSpec

  /** Equal but for the position in vRandom. */
  ghost predicate SameInfo(a: Info, b: Info) {
    a.(randomPos := 0) == b.(randomPos := 0)
  }

  /** The entries are unchanged, but for their positions in vRandom, and some may be gone. */
  ghost predicate Shrunk(s: State, t: State) {
    && t.mapInfo.Keys <= s.mapInfo.Keys
    && (forall id | id in t.mapInfo :: SameInfo(s.mapInfo[id], t.mapInfo[id]))
    && t.idCount == s.idCount && t.lastGood == s.lastGood && t.collisions == s.collisions
    && t.vvTried == s.vvTried && t.nTried == s.nTried
  }

  lemma SwapRandomOk(s: State, p: int, q: int)
    requires IndexesOk(s) && 0 <= p < |s.vRandom| && 0 <= q < |s.vRandom|
    ensures MaySwap(s, p, q)
    ensures IndexesOk(SwapRandom(s, p, q))
    ensures Shrunk(s, SwapRandom(s, p, q))
    ensures SwapRandom(s, p, q).mapInfo.Keys == s.mapInfo.Keys
    ensures SwapRandom(s, p, q).vRandom == s.vRandom[p := s.vRandom[q]][q := s.vRandom[p]]
    ensures SwapRandom(s, p, q).mapAddr == s.mapAddr
    ensures SwapRandom(s, p, q).vvNew == s.vvNew && SwapRandom(s, p, q).nNew == s.nNew
  {
    var t := SwapRandom(s, p, q);
    assert s.vRandom[p] == s.vRandom[q] ==> p == q;
    forall x | 0 <= x < |t.vRandom|
      ensures t.vRandom[x] in t.mapInfo && t.mapInfo[t.vRandom[x]].randomPos == x
    {
    }
  }

  /** The indexes only look at services and positions. */
  lemma SameIndexes(s: State, t: State)
    requires IndexesOk(s)
    requires t.idCount == s.idCount && t.mapAddr == s.mapAddr && t.vRandom == s.vRandom
    requires t.mapInfo.Keys == s.mapInfo.Keys
    requires forall id | id in s.mapInfo ::
        t.mapInfo[id].service == s.mapInfo[id].service && t.mapInfo[id].randomPos == s.mapInfo[id].randomPos
    ensures IndexesOk(t)
  {
  }

  /** Tables and counters do not look at positions in vRandom. */
  lemma ConsistentUpToPositions(e: Env, s: State, t: State, limbo: set<int>, uncounted: int)
    requires Consistent(e, s, limbo, uncounted)
    requires IndexesOk(t) && Shrunk(s, t) && t.mapInfo.Keys == s.mapInfo.Keys
    requires t.vvNew == s.vvNew && t.nNew == s.nNew && |t.vRandom| == |s.vRandom|
    ensures Consistent(e, t, limbo, uncounted)
  {
    assert forall id | id in t.mapInfo :: t.mapInfo[id].inTried == s.mapInfo[id].inTried;
    assert TriedIds(t) == TriedIds(s);
    assert NewIds(t) == NewIds(s);
    assert TablesOk(e, t);
    forall id | id in t.mapInfo ensures InfoOk(e, t, limbo, id) {
      assert InfoOk(e, s, limbo, id);
      assert SameInfo(s.mapInfo[id], t.mapInfo[id]);
    }
  }

  /** An id in limbo is in no slot of either table. */
  lemma LimboInNoTable(e: Env, s: State, limbo: set<int>, uncounted: int, id: int)
    requires Consistent(e, s, limbo, uncounted) && id in limbo
    ensures forall b, i | 0 <= b < NEW_BUCKET_COUNT && 0 <= i < BUCKET_SIZE :: s.vvNew[b][i] != id
    ensures forall b, i | 0 <= b < TRIED_BUCKET_COUNT && 0 <= i < BUCKET_SIZE :: s.vvTried[b][i] != id
  {
    assert InfoOk(e, s, limbo, id);
    assert NewBuckets(e, s.vvNew, s.mapInfo[id].service, id) == {};
    assert forall b, i | 0 <= b < NEW_BUCKET_COUNT && 0 <= i < BUCKET_SIZE && s.vvNew[b][i] == id ::
        b in NewBuckets(e, s.vvNew, s.mapInfo[id].service, id);
  }

  /** Removing an unreferenced entry. */
  lemma DeleteOk(e: Env, s: State, limbo: set<int>, uncounted: int, id: int)
    requires Consistent(e, s, limbo, uncounted) && id in limbo
    ensures MayDelete(s, id)
    ensures Consistent(e, Delete(s, id), limbo - {id}, uncounted)
    ensures Shrunk(s, Delete(s, id)) && Delete(s, id).mapInfo.Keys == s.mapInfo.Keys - {id}
    ensures Delete(s, id).vvNew == s.vvNew
  {
    assert InfoOk(e, s, limbo, id);
    SwapRandomOk(s, s.mapInfo[id].randomPos, |s.vRandom| - 1);
    var t := SwapRandom(s, s.mapInfo[id].randomPos, |s.vRandom| - 1);
    ConsistentUpToPositions(e, s, t, limbo, uncounted);
    assert SameInfo(s.mapInfo[id], t.mapInfo[id]);
    RemoveLastOk(e, t, Delete(s, id), limbo, uncounted, id);
  }

  lemma RemoveLastOk(e: Env, t: State, r: State, limbo: set<int>, uncounted: int, id: int)
    requires Consistent(e, t, limbo, uncounted) && id in limbo
    requires |t.vRandom| > 0 && t.vRandom[|t.vRandom| - 1] == id
    requires r == t.(vRandom := t.vRandom[..|t.vRandom| - 1], mapAddr := t.mapAddr - {t.mapInfo[id].service.net},
                     mapInfo := t.mapInfo - {id}, nNew := t.nNew - 1)
    ensures Consistent(e, r, limbo - {id}, uncounted)
  {
    LimboInNoTable(e, t, limbo, uncounted, id);
    RemovedIndexesOk(t, r, id);
    RemovedTablesOk(e, t, r, limbo, uncounted, id);
  }

  lemma RemovedIndexesOk(t: State, r: State, id: int)
    requires IndexesOk(t) && id in t.mapInfo && |t.vRandom| > 0 && t.vRandom[|t.vRandom| - 1] == id
    requires r.idCount == t.idCount && r.vRandom == t.vRandom[..|t.vRandom| - 1]
    requires r.mapAddr == t.mapAddr - {t.mapInfo[id].service.net} && r.mapInfo == t.mapInfo - {id}
    ensures IndexesOk(r)
  {
  }

  lemma RemovedTablesOk(e: Env, t: State, r: State, limbo: set<int>, uncounted: int, id: int)
    requires Consistent(e, t, limbo, uncounted) && id in limbo
    requires forall b, i | 0 <= b < NEW_BUCKET_COUNT && 0 <= i < BUCKET_SIZE :: t.vvNew[b][i] != id
    requires forall b, i | 0 <= b < TRIED_BUCKET_COUNT && 0 <= i < BUCKET_SIZE :: t.vvTried[b][i] != id
    requires IndexesOk(r) && r.mapInfo == t.mapInfo - {id} && |r.vRandom| == |t.vRandom| - 1 && r.idCount == t.idCount
    requires r.vvNew == t.vvNew && r.vvTried == t.vvTried && r.nTried == t.nTried && r.nNew == t.nNew - 1
    ensures Consistent(e, r, limbo - {id}, uncounted)
  {
    assert InfoOk(e, t, limbo, id);
    assert TriedIds(r) == TriedIds(t);
    assert NewIds(r) == NewIds(t) - {id};
    RemovedTables(e, t, r, id);
    forall x | x in r.mapInfo ensures InfoOk(e, r, limbo - {id}, x) {
      assert InfoOk(e, t, limbo, x);
    }
  }

  lemma RemovedTables(e: Env, t: State, r: State, id: int)
    requires TablesOk(e, t) && r.mapInfo == t.mapInfo - {id} && r.vvNew == t.vvNew && r.vvTried == t.vvTried
    requires forall b, i | 0 <= b < NEW_BUCKET_COUNT && 0 <= i < BUCKET_SIZE :: t.vvNew[b][i] != id
    requires forall b, i | 0 <= b < TRIED_BUCKET_COUNT && 0 <= i < BUCKET_SIZE :: t.vvTried[b][i] != id
    ensures TablesOk(e, r)
  {
  }

  /** What a slot holds never belongs to two addresses' positions, so updates stay local. */
  lemma NewBucketsPut(e: Env, vvNew: Table, b: nat, i: nat, id: int, a: Service, x: int)
    requires Shaped(vvNew, NEW_BUCKET_COUNT) && b < NEW_BUCKET_COUNT && i < BUCKET_SIZE
    ensures Shaped(Put(vvNew, b, i, id), NEW_BUCKET_COUNT)
    ensures NewBuckets(e, Put(vvNew, b, i, id), a, x) ==
            if e.Position(true, b, a) != i then NewBuckets(e, vvNew, a, x)
            else if x == id then NewBuckets(e, vvNew, a, x) + {b}
            else NewBuckets(e, vvNew, a, x) - {b}
  {
  }

  /** Emptying a slot and dropping the reference it stood for. */
  lemma UnreferenceOk(e: Env, s: State, limbo: set<int>, uncounted: int, b: nat, i: nat)
    requires Consistent(e, s, limbo, uncounted)
    requires b < NEW_BUCKET_COUNT && i < BUCKET_SIZE && s.vvNew[b][i] != -1
    ensures var id := s.vvNew[b][i];
      && id in s.mapInfo && id !in limbo && s.mapInfo[id].refCount > 0
      && Consistent(e, Unreference(s, b, i), if s.mapInfo[id].refCount == 1 then limbo + {id} else limbo, uncounted)
  {
    var id := s.vvNew[b][i];
    assert b in NewBuckets(e, s.vvNew, s.mapInfo[id].service, id);
    assert InfoOk(e, s, limbo, id);
    var t := Unreference(s, b, i);
    UnreferencedTables(e, s, b, i);
    UnreferencedInfos(e, s, limbo, uncounted, b, i);
    hide TablesOk, InfoOk;
    assert TriedIds(t) == TriedIds(s);
    assert NewIds(t) == NewIds(s);
    SameIndexes(s, t);
  }

  lemma UnreferencedTables(e: Env, s: State, b: nat, i: nat)
    requires TablesOk(e, s) && b < NEW_BUCKET_COUNT && i < BUCKET_SIZE && s.vvNew[b][i] != -1
    ensures TablesOk(e, Unreference(s, b, i))
  {
  }

  lemma UnreferencedInfos(e: Env, s: State, limbo: set<int>, uncounted: int, b: nat, i: nat)
    requires Consistent(e, s, limbo, uncounted)
    requires b < NEW_BUCKET_COUNT && i < BUCKET_SIZE && s.vvNew[b][i] != -1
    ensures Shaped(Unreference(s, b, i).vvNew, NEW_BUCKET_COUNT)
    ensures var id := s.vvNew[b][i];
      var limbo' := if s.mapInfo[id].refCount == 1 then limbo + {id} else limbo;
      forall x | x in s.mapInfo :: InfoOk(e, Unreference(s, b, i), limbo', x)
  {
    var id := s.vvNew[b][i];
    var limbo' := if s.mapInfo[id].refCount == 1 then limbo + {id} else limbo;
    forall x | x in s.mapInfo ensures InfoOk(e, Unreference(s, b, i), limbo', x) {
      assert InfoOk(e, s, limbo, x);
      UnreferencedInfo(e, s, Unreference(s, b, i), limbo, limbo', b, i, x);
    }
  }

  lemma UnreferencedInfo(e: Env, s: State, t: State, limbo: set<int>, limbo': set<int>, b: nat, i: nat, x: int)
    requires Shaped(s.vvNew, NEW_BUCKET_COUNT) && Shaped(s.vvTried, TRIED_BUCKET_COUNT)
    requires b < NEW_BUCKET_COUNT && i < BUCKET_SIZE && s.vvNew[b][i] in s.mapInfo
    requires x in s.mapInfo && x >= 0 && InfoOk(e, s, limbo, x)
    requires x == s.vvNew[b][i] ==> !s.mapInfo[x].inTried && e.Position(true, b, s.mapInfo[x].service) == i
    requires limbo' == if s.mapInfo[s.vvNew[b][i]].refCount == 1 then limbo + {s.vvNew[b][i]} else limbo
    requires t == Unreference(s, b, i) && Shaped(t.vvNew, NEW_BUCKET_COUNT)
    ensures InfoOk(e, t, limbo', x)
  {
    var a := s.mapInfo[x].service;
    NewBucketsPut(e, s.vvNew, b, i, -1, a, x);
    if x == s.vvNew[b][i] {
      assert b in NewBuckets(e, s.vvNew, a, x);
    } else if e.Position(true, b, a) == i {
      assert b !in NewBuckets(e, s.vvNew, a, x);
    }
  }

  /** What clearing a slot changes: the entry it held loses a reference, or goes with its last one. */
  ghost predicate Cleared(s: State, t: State, b: nat, i: nat)
    requires Shaped(s.vvNew, NEW_BUCKET_COUNT) && b < NEW_BUCKET_COUNT && i < BUCKET_SIZE
  {
    var id := s.vvNew[b][i];
    && t.vvNew == Put(s.vvNew, b, i, -1)
    && (forall x | x in s.mapInfo && x != id :: x in t.mapInfo && SameInfo(s.mapInfo[x], t.mapInfo[x]))
    && t.mapInfo.Keys ==
         (if id in s.mapInfo && s.mapInfo[id].refCount == 1 then s.mapInfo.Keys - {id} else s.mapInfo.Keys)
    && (id in t.mapInfo ==> SameInfo(s.mapInfo[id].(refCount := s.mapInfo[id].refCount - 1), t.mapInfo[id]))
    && t.idCount == s.idCount && t.lastGood == s.lastGood && t.collisions == s.collisions
    && t.vvTried == s.vvTried && t.nTried == s.nTried
  }

  /** ClearNew: its asserts hold, the slot is empty afterwards and at most its old entry is gone. */
  lemma ClearNewOk(e: Env, s: State, limbo: set<int>, uncounted: int, b: nat, i: nat)
    requires Consistent(e, s, limbo, uncounted) && b < NEW_BUCKET_COUNT && i < BUCKET_SIZE
    ensures MayClearNew(s, b, i)
    ensures Consistent(e, ClearNew(s, b, i), limbo, uncounted)
    ensures Cleared(s, ClearNew(s, b, i), b, i)
  {
    var id := s.vvNew[b][i];
    assert Shaped(s.vvNew, NEW_BUCKET_COUNT) && -1 !in s.mapInfo;
    if id == -1 {
      assert s.vvNew[b][i := -1] == s.vvNew[b];
    } else {
      UnreferenceOk(e, s, limbo, uncounted, b, i);
      hide Consistent, Cleared;
      var t := Unreference(s, b, i);
      UnreferencedIsCleared(s, t, b, i);
      if s.mapInfo[id].refCount == 1 {
        DeleteOk(e, t, limbo + {id}, uncounted, id);
        assert limbo + {id} - {id} == limbo;
        DeletedIsCleared(s, t, Delete(t, id), b, i);
      }
    }
  }

  lemma UnreferencedIsCleared(s: State, t: State, b: nat, i: nat)
    requires Shaped(s.vvNew, NEW_BUCKET_COUNT) && b < NEW_BUCKET_COUNT && i < BUCKET_SIZE
    requires s.vvNew[b][i] in s.mapInfo && t == Unreference(s, b, i)
    ensures s.mapInfo[s.vvNew[b][i]].refCount != 1 ==> Cleared(s, t, b, i)
  {
  }

  lemma DeletedIsCleared(s: State, t: State, r: State, b: nat, i: nat)
    requires Shaped(s.vvNew, NEW_BUCKET_COUNT) && b < NEW_BUCKET_COUNT && i < BUCKET_SIZE
    requires s.vvNew[b][i] in s.mapInfo && s.mapInfo[s.vvNew[b][i]].refCount == 1
    requires t == Unreference(s, b, i)
    requires Shrunk(t, r) && r.mapInfo.Keys == t.mapInfo.Keys - {s.vvNew[b][i]} && r.vvNew == t.vvNew
    ensures Cleared(s, r, b, i)
  {
  }

  /** The state after adding a reference to an entry in an empty slot. */
  function AddReference(s: State, b: nat, i: nat, id: int): State
    requires Shaped(s.vvNew, NEW_BUCKET_COUNT) && b < NEW_BUCKET_COUNT && i < BUCKET_SIZE && id in s.mapInfo
  {
    s.(mapInfo := s.mapInfo[id := s.mapInfo[id].(refCount := s.mapInfo[id].refCount + 1)],
       vvNew := Put(s.vvNew, b, i, id))
  }

  lemma AddReferenceOk(e: Env, s: State, limbo: set<int>, uncounted: int, b: nat, i: nat, id: int)
    requires Consistent(e, s, limbo, uncounted)
    requires id in s.mapInfo && !s.mapInfo[id].inTried && s.mapInfo[id].refCount < NEW_BUCKETS_PER_ADDRESS
    requires b < NEW_BUCKET_COUNT && i == e.Position(true, b, s.mapInfo[id].service) && s.vvNew[b][i] == -1
    ensures Consistent(e, AddReference(s, b, i, id), limbo - {id}, uncounted)
  {
    assert InfoOk(e, s, limbo, id);
    var t := AddReference(s, b, i, id);
    assert TriedIds(t) == TriedIds(s);
    assert NewIds(t) == NewIds(s);
    SameIndexes(s, t);
    ReferencedTables(e, s, b, i, id);
    forall x | x in t.mapInfo ensures InfoOk(e, t, limbo - {id}, x) {
      assert InfoOk(e, s, limbo, x);
      ReferencedInfo(e, s, t, limbo, b, i, id, x);
    }
  }

  lemma ReferencedTables(e: Env, s: State, b: nat, i: nat, id: int)
    requires TablesOk(e, s) && id in s.mapInfo && !s.mapInfo[id].inTried
    requires b < NEW_BUCKET_COUNT && i == e.Position(true, b, s.mapInfo[id].service)
    ensures TablesOk(e, AddReference(s, b, i, id))
  {
  }

  lemma ReferencedInfo(e: Env, s: State, t: State, limbo: set<int>, b: nat, i: nat, id: int, x: int)
    requires Shaped(s.vvNew, NEW_BUCKET_COUNT) && Shaped(s.vvTried, TRIED_BUCKET_COUNT)
    requires x in s.mapInfo && InfoOk(e, s, limbo, x)
    requires id in s.mapInfo && !s.mapInfo[id].inTried && 0 <= s.mapInfo[id].refCount < NEW_BUCKETS_PER_ADDRESS
    requires 0 <= id && b < NEW_BUCKET_COUNT && i == e.Position(true, b, s.mapInfo[id].service) && s.vvNew[b][i] == -1
    requires x >= 0 && t == AddReference(s, b, i, id) && Shaped(t.vvNew, NEW_BUCKET_COUNT)
    ensures InfoOk(e, t, limbo - {id}, x)
  {
    var a := s.mapInfo[x].service;
    NewBucketsPut(e, s.vvNew, b, i, id, a, x);
    assert e.Position(true, b, a) == i ==> b !in NewBuckets(e, s.vvNew, a, x);
  }

  /** A new entry is in limbo and not yet counted. */
  lemma CreateOk(e: Env, s: State, limbo: set<int>, uncounted: int, addr: Address, source: NetAddr)
    requires Consistent(e, s, limbo, uncounted) && addr.service.net !in s.mapAddr && s.idCount >= 0
    ensures Consistent(e, Create(s, addr, source), limbo + {s.idCount}, uncounted + 1)
  {
    var t := Create(s, addr, source);
    var id := s.idCount;
    assert id !in s.mapInfo;
    assert TriedIds(t) == TriedIds(s);
    assert NewIds(t) == NewIds(s) + {id};
    CreatedIndexesOk(s, addr, source);
    assert TablesOk(e, t);
    forall x | x in t.mapInfo ensures InfoOk(e, t, limbo + {id}, x) {
      if x == id {
        assert NewBuckets(e, t.vvNew, addr.service, id) == {};
      } else {
        assert InfoOk(e, s, limbo, x);
      }
    }
  }

  lemma CreatedIndexesOk(s: State, addr: Address, source: NetAddr)
    requires IndexesOk(s) && addr.service.net !in s.mapAddr && s.idCount >= 0
    ensures IndexesOk(Create(s, addr, source))
  {
  }

  // ----- MakeTried -----

  /** After the loop at the start of MakeTried: the entry is in no bucket and not counted. */
  function Detached(e: Env, s: State, id: int): State
    requires Shaped(s.vvNew, NEW_BUCKET_COUNT) && id in s.mapInfo
  {
    s.(vvNew := DropFromNew(e, s.vvNew, s.mapInfo[id].service, id),
       mapInfo := s.mapInfo[id := s.mapInfo[id].(refCount := 0)],
       nNew := s.nNew - 1)
  }

  lemma DetachedOk(e: Env, s: State, id: int)
    requires Consistent(e, s, {}, 0) && id in s.mapInfo && !s.mapInfo[id].inTried
    ensures Consistent(e, Detached(e, s, id), {id}, 1)
  {
    var t := Detached(e, s, id);
    DetachedTables(e, s, id);
    DetachedInfos(e, s, id);
    hide TablesOk, InfoOk;
    assert TriedIds(t) == TriedIds(s);
    assert NewIds(t) == NewIds(s);
    SameIndexes(s, t);
  }

  lemma DetachedInfos(e: Env, s: State, id: int)
    requires Consistent(e, s, {}, 0) && id in s.mapInfo && !s.mapInfo[id].inTried
    ensures Shaped(Detached(e, s, id).vvNew, NEW_BUCKET_COUNT)
    ensures forall x | x in s.mapInfo :: InfoOk(e, Detached(e, s, id), {id}, x)
  {
    assert InfoOk(e, s, {}, id);
    forall x | x in s.mapInfo ensures InfoOk(e, Detached(e, s, id), {id}, x) {
      assert InfoOk(e, s, {}, x);
      DetachedBuckets(e, s.vvNew, s.mapInfo[id].service, id, s.mapInfo[x].service, x);
    }
  }

  lemma DetachedTables(e: Env, s: State, id: int)
    requires TablesOk(e, s) && id in s.mapInfo
    ensures TablesOk(e, Detached(e, s, id))
  {
  }

  /** Dropping an id from every bucket leaves the buckets of the others alone. */
  lemma DetachedBuckets(e: Env, vvNew: Table, a: Service, id: int, c: Service, x: int)
    requires Shaped(vvNew, NEW_BUCKET_COUNT) && id >= 0 && x >= 0
    ensures Shaped(DropFromNew(e, vvNew, a, id), NEW_BUCKET_COUNT)
    ensures x == id && c == a ==> NewBuckets(e, DropFromNew(e, vvNew, a, id), c, x) == {}
    ensures x != id ==> NewBuckets(e, DropFromNew(e, vvNew, a, id), c, x) == NewBuckets(e, vvNew, c, x)
  {
  }

  /** A tried entry taken out of its slot. */
  function Evicted(s: State, b: nat, i: nat): State
    requires Shaped(s.vvTried, TRIED_BUCKET_COUNT) && b < TRIED_BUCKET_COUNT && i < BUCKET_SIZE
    requires s.vvTried[b][i] in s.mapInfo
  {
    var old' := s.vvTried[b][i];
    s.(mapInfo := s.mapInfo[old' := s.mapInfo[old'].(inTried := false)],
       vvTried := Put(s.vvTried, b, i, -1), nTried := s.nTried - 1)
  }

  lemma EvictedOk(e: Env, s: State, limbo: set<int>, uncounted: int, b: nat, i: nat)
    requires Consistent(e, s, limbo, uncounted)
    requires b < TRIED_BUCKET_COUNT && i < BUCKET_SIZE && s.vvTried[b][i] != -1
    ensures s.vvTried[b][i] in s.mapInfo && s.vvTried[b][i] !in limbo
    ensures Consistent(e, Evicted(s, b, i), limbo + {s.vvTried[b][i]}, uncounted + 1)
  {
    var id := s.vvTried[b][i];
    assert InfoOk(e, s, limbo, id);
    EvictedTables(e, s, b, i);
    EvictedInfos(e, s, limbo, uncounted, b, i);
    var t := Evicted(s, b, i);
    hide TablesOk, InfoOk;
    MovedToNew(s, t, id);
    SameIndexes(s, t);
  }

  lemma EvictedInfos(e: Env, s: State, limbo: set<int>, uncounted: int, b: nat, i: nat)
    requires Consistent(e, s, limbo, uncounted)
    requires b < TRIED_BUCKET_COUNT && i < BUCKET_SIZE && s.vvTried[b][i] != -1
    ensures Shaped(Evicted(s, b, i).vvTried, TRIED_BUCKET_COUNT)
    ensures forall x | x in s.mapInfo :: InfoOk(e, Evicted(s, b, i), limbo + {s.vvTried[b][i]}, x)
  {
    var id := s.vvTried[b][i];
    assert InfoOk(e, s, limbo, id);
    assert forall c, j | 0 <= c < NEW_BUCKET_COUNT && 0 <= j < BUCKET_SIZE :: s.vvNew[c][j] != id;
    forall x | x in s.mapInfo ensures InfoOk(e, Evicted(s, b, i), limbo + {id}, x) {
      assert InfoOk(e, s, limbo, x);
      EvictedInfo(e, s, limbo, b, i, x);
    }
  }

  lemma EvictedTables(e: Env, s: State, b: nat, i: nat)
    requires TablesOk(e, s) && b < TRIED_BUCKET_COUNT && i < BUCKET_SIZE && s.vvTried[b][i] != -1
    ensures TablesOk(e, Evicted(s, b, i))
  {
  }

  lemma EvictedInfo(e: Env, s: State, limbo: set<int>, b: nat, i: nat, x: int)
    requires Shaped(s.vvNew, NEW_BUCKET_COUNT) && Shaped(s.vvTried, TRIED_BUCKET_COUNT)
    requires b < TRIED_BUCKET_COUNT && i < BUCKET_SIZE && s.vvTried[b][i] in s.mapInfo
    requires s.mapInfo[s.vvTried[b][i]].inTried && s.mapInfo[s.vvTried[b][i]].refCount == 0
    requires forall c, j | 0 <= c < NEW_BUCKET_COUNT && 0 <= j < BUCKET_SIZE :: s.vvNew[c][j] != s.vvTried[b][i]
    requires x in s.mapInfo && InfoOk(e, s, limbo, x)
    requires Shaped(Evicted(s, b, i).vvTried, TRIED_BUCKET_COUNT)
    ensures InfoOk(e, Evicted(s, b, i), limbo + {s.vvTried[b][i]}, x)
  {
    if x == s.vvTried[b][i] {
      assert NewBuckets(e, s.vvNew, s.mapInfo[x].service, x) == {};
    }
  }

  /** An entry placed in an empty tried slot. */
  function Placed(e: Env, s: State, id: int): State
    requires Shaped(s.vvTried, TRIED_BUCKET_COUNT) && id in s.mapInfo
  {
    var a := s.mapInfo[id].service;
    s.(mapInfo := s.mapInfo[id := s.mapInfo[id].(inTried := true)],
       vvTried := Put(s.vvTried, e.TriedBucket(a), e.Position(false, e.TriedBucket(a), a), id),
       nTried := s.nTried + 1)
  }

  lemma PlacedOk(e: Env, s: State, id: int)
    requires Consistent(e, s, {id}, 1)
    requires TriedSlot(e, s, s.mapInfo[id].service) == -1
    ensures Consistent(e, Placed(e, s, id), {}, 0)
  {
    PlacedTables(e, s, id);
    PlacedInfos(e, s, id);
    var t := Placed(e, s, id);
    hide TablesOk, InfoOk;
    MovedToTried(s, t, id);
    SameIndexes(s, t);
  }

  lemma MovedToTried(s: State, t: State, id: int)
    requires id in s.mapInfo && !s.mapInfo[id].inTried
    requires t.mapInfo == s.mapInfo[id := s.mapInfo[id].(inTried := true)]
    ensures |TriedIds(t)| == |TriedIds(s)| + 1 && |NewIds(t)| == |NewIds(s)| - 1
  {
    assert TriedIds(t) == TriedIds(s) + {id};
    assert NewIds(t) == NewIds(s) - {id};
  }

  lemma MovedToNew(s: State, t: State, id: int)
    requires id in s.mapInfo && s.mapInfo[id].inTried
    requires t.mapInfo == s.mapInfo[id := s.mapInfo[id].(inTried := false)]
    ensures |TriedIds(t)| == |TriedIds(s)| - 1 && |NewIds(t)| == |NewIds(s)| + 1
  {
    assert TriedIds(t) == TriedIds(s) - {id};
    assert NewIds(t) == NewIds(s) + {id};
  }

  lemma PlacedInfos(e: Env, s: State, id: int)
    requires Consistent(e, s, {id}, 1)
    requires TriedSlot(e, s, s.mapInfo[id].service) == -1
    ensures Shaped(Placed(e, s, id).vvTried, TRIED_BUCKET_COUNT)
    ensures !s.mapInfo[id].inTried
    ensures forall x | x in s.mapInfo :: InfoOk(e, Placed(e, s, id), {}, x)
  {
    assert InfoOk(e, s, {id}, id);
    forall x | x in s.mapInfo ensures InfoOk(e, Placed(e, s, id), {}, x) {
      assert InfoOk(e, s, {id}, x);
      PlacedInfo(e, s, id, x);
    }
  }

  lemma PlacedInfo(e: Env, s: State, id: int, x: int)
    requires Shaped(s.vvNew, NEW_BUCKET_COUNT) && Shaped(s.vvTried, TRIED_BUCKET_COUNT)
    requires id in s.mapInfo && s.mapInfo[id].refCount == 0
    requires TriedSlot(e, s, s.mapInfo[id].service) == -1
    requires x in s.mapInfo && x >= 0 && InfoOk(e, s, {id}, x)
    requires Shaped(Placed(e, s, id).vvTried, TRIED_BUCKET_COUNT)
    ensures InfoOk(e, Placed(e, s, id), {}, x)
  {
  }

  lemma PlacedTables(e: Env, s: State, id: int)
    requires Consistent(e, s, {id}, 1)
    ensures TablesOk(e, Placed(e, s, id))
  {
    LimboInNoTable(e, s, {id}, 1, id);
  }
}
