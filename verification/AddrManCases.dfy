/** Runs of the address manager that show where its documentation and its invariant stop holding. */
module AddrManCases {
  import opened Wrappers
  import opened AddrManSpec
  import opened AddrManOps

  /** The first address heard of: there is room for it, so it is kept. */
  lemma FirstHeard(e: Env, addr: Address, source: NetAddr, now: int)
    requires e.isRoutable(addr.service.net)
    ensures var run := Run(e, [OpAdd(addr, source, 0, now, false)]);
      && run.Some? && Inv(e, run.value) && run.value.idCount == 1
      && Find(run.value, addr.service.net) == FindExact(run.value, addr.service) == Some(0)
      && Entered(e, run.value, 0, addr, source, 0)
      && run.value.vvTried == Initial().vvTried
      && run.value.vvNew[e.NewBucket(addr.service, source)]
           [e.Position(true, e.NewBucket(addr.service, source), addr.service)] == 0
  {
    hide Intact, Add;
    var op := OpAdd(addr, source, 0, now, false);
    assert [op][..0] == [] && Run(e, []) == Some(Initial());
    InitialOk(e);
    var s := Initial();
    assert Find(s, addr.service.net).None? && HasRoom(e, s, addr.service, source, now);
    AddOutcome(e, s, addr, source, 0, now, false);
    var t := Run(e, [op]).value;
    assert t == Add(e, s, addr, source, 0, now, false).0;
    FoundAs(e, t, 0, addr.service);
    assert e.NewBucket(addr.service, source) in NewBuckets(e, t.vvNew, addr.service, 0);
  }

  lemma FoundAs(e: Env, s: State, id: int, a: Service)
    requires Intact(e, s) && id in s.mapInfo && s.mapInfo[id].service == a
    ensures Find(s, a.net) == FindExact(s, a) == Some(id)
  {
  }

  /** Good_ at the epoch puts an entry into the tried table that was never reached. */
  lemma GoodAtEpoch(e: Env, addr: Address, source: NetAddr, now: int)
    requires e.isRoutable(addr.service.net)
    ensures var run := Run(e, [OpAdd(addr, source, 0, now, false)]);
      run.Some? && !Inv(e, Good(e, run.value, addr.service, false, 0))
  {
    FirstHeard(e, addr, source, now);
    var s := Run(e, [OpAdd(addr, source, 0, now, false)]).value;
    hide Intact, Good, Run;
    GoodKeepsInv(e, s, addr.service, false, 0);
  }

  /** Attempt_ before the epoch leaves an entry last tried at a negative time. */
  lemma AttemptBeforeEpoch(e: Env, addr: Address, source: NetAddr, now: int, countFailure: bool)
    requires e.isRoutable(addr.service.net)
    ensures var run := Run(e, [OpAdd(addr, source, 0, now, false)]);
      run.Some? && !Inv(e, Touched(run.value, addr.service, Attempt(countFailure, -1)))
  {
    FirstHeard(e, addr, source, now);
    var s := Run(e, [OpAdd(addr, source, 0, now, false)]).value;
    hide Intact, Touched, Run;
    TouchedKeepsInv(e, s, addr.service, Attempt(countFailure, -1));
  }

  /** Everything hashes to one slot, and every address is routable. */
  function OneSlot(): Env {
    Env(1, _ => 0, _ => [], _ => [], _ => true, _ => true, _ => 0)
  }

  /** A peer heard of at time 1000. */
  function Peer(k: nat): Address {
    Address(Service(NetAddr(1, [k]), 8333), 1000, {})
  }

  /** Reported as new and dropped: the one slot of the second address belongs to the first. */
  lemma ReportedNewAndDropped(source: NetAddr)
    ensures var e := OneSlot();
      var run := Run(e, [OpAdd(Peer(0), source, 0, 1000, false)]);
      && run.Some?
      && var (t, isNew) := Add(e, run.value, Peer(1), source, 0, 1000, false);
      isNew && Find(t, Peer(1).service.net).None? && t.mapInfo.Keys == run.value.mapInfo.Keys
  {
    var e := OneSlot();
    FirstHeard(e, Peer(0), source, 1000);
    var s := Run(e, [OpAdd(Peer(0), source, 0, 1000, false)]).value;
    hide Run, Add;
    SecondUnknown(e, s, source);
    AddOutcome(e, s, Peer(1), source, 0, 1000, false);
  }

  lemma SecondUnknown(e: Env, s: State, source: NetAddr)
    requires e == OneSlot() && Intact(e, s) && Entered(e, s, 0, Peer(0), source, 0) && s.vvNew[0][0] == 0
    requires s.idCount == 1
    ensures Find(s, Peer(1).service.net).None? && !HasRoom(e, s, Peer(1).service, source, 1000)
  {
    FoundIsEntry(e, s, Peer(1).service.net);
    assert Peer(0).service.net.bytes[0] == 0 && Peer(1).service.net.bytes[0] == 1;
  }
}
