/**
  Voting on federation parameters, epoch by epoch, along a chain of blocks.

  A chain is the sequence of its headers, the genesis block first; the parameters computed
  from it are those of the block that comes next.
*/
module DynaFed {
  import opened Wrappers
  import opened Headers
  import opened Chain

  /** Hashing is left open; zero is the null hash. */
  datatype Consensus = Consensus(
    epochLength: nat,
    startsAtOne: bool,
    startP2wsh: bool,
    maxBlockSignatureSize: nat,
    fedpegScript: Script,
    firstExtensionSpace: seq<Script>,
    witnessProgram: Script -> Script,
    scriptHash: Script -> Script,
    compactRoot: (Script, nat) -> nat,
    extraRoot: (Script, Script, seq<Script>) -> nat,
    node: (nat, nat) -> nat)

  // ----- Entries -----

  function ExtraRoot(c: Consensus, e: Entry): nat {
    if e.Full? then c.extraRoot(e.fedpegProgram, e.fedpegScript, e.extension) else c.extraRoot([], [], [])
  }

  function Root(c: Consensus, e: Entry): nat {
    match e
    case Null => 0
    case Compact(script, limit, elided) => c.node(c.compactRoot(script, limit), elided)
    case Full(script, limit, _, _, _) => c.node(c.compactRoot(script, limit), ExtraRoot(c, e))
  }

  /** Equality of entries as the header check has it: it does not look at the elided root. */
  predicate Same(a: Entry, b: Entry) {
    if a.Compact? && b.Compact? then a.signblockScript == b.signblockScript && a.witnessLimit == b.witnessLimit
    else a == b
  }

  function Compacted(c: Consensus, e: Entry): Entry {
    if e.Null? then Compact([], 0, ExtraRoot(c, e)) else Compact(e.signblockScript, e.witnessLimit, ExtraRoot(c, e))
  }

  /** Leaving out the rest keeps the root of a full entry. */
  lemma CompactedRoot(c: Consensus, e: Entry)
    requires e.Full?
    ensures Root(c, Compacted(c, e)) == Root(c, e)
  {
  }

  /** No two inputs with the same hash. */
  ghost predicate CollisionFree(c: Consensus) {
    && (forall a, b, x, y | c.node(a, b) == c.node(x, y) :: a == x && b == y)
    && (forall s, n, t, m | c.compactRoot(s, n) == c.compactRoot(t, m) :: s == t && n == m)
    && (forall p, s, e, q, t, f | c.extraRoot(p, s, e) == c.extraRoot(q, t, f) :: p == q && s == t && e == f)
  }

  /** A vote for a root is a vote for one entry: the root commits to every field. */
  lemma RootBinds(c: Consensus, a: Entry, b: Entry)
    requires CollisionFree(c) && !a.Null? && !b.Null? && Root(c, a) == Root(c, b)
    ensures a.signblockScript == b.signblockScript && a.witnessLimit == b.witnessLimit
    ensures a.Full? && b.Full? ==> a == b
    ensures a.Full? && b.Compact? ==> b == Compacted(c, a)
  {
  }

  /** The parameters in force before dynamic federations, spelled out. */
  function Legacy(c: Consensus, challenge: Script): Entry {
    var program := c.witnessProgram(c.fedpegScript);
    Full(c.witnessProgram(challenge), c.maxBlockSignatureSize, if c.startP2wsh then program else c.scriptHash(program),
         c.fedpegScript, c.firstExtensionSpace)
  }

  // ----- The vote -----

  /** Four fifths of an epoch, in 32 bits. */
  function Threshold(c: Consensus): nat {
    c.epochLength * 4 % 0x1_0000_0000 / 5
  }

  /** The votes a root needs: a proposal is looked at with its own vote counted. */
  function Needed(c: Consensus): (n: nat) {
    if Threshold(c) == 0 then 1 else Threshold(c)
  }

  /** The votes for a root from a height on. */
  function Votes(c: Consensus, chain: seq<Header>, low: nat, root: nat): nat
    requires low <= |chain|
    decreases |chain| - low
  {
    if low == |chain| then 0 else
    Votes(c, chain, low + 1, root) + if Root(c, chain[low].proposed) == root then 1 else 0
  }

  /** Down from height h: the first proposal whose root has enough votes by then. */
  function Winner(c: Consensus, chain: seq<Header>, h: nat): Option<Entry>
    requires c.epochLength <= |chain| && |chain| - c.epochLength <= h <= |chain|
    decreases h
  {
    if h == |chain| - c.epochLength then None else
    var proposal := chain[h - 1].proposed;
    if Root(c, proposal) != 0 && Votes(c, chain, h - 1, Root(c, proposal)) >= Threshold(c) then Some(proposal)
    else Winner(c, chain, h - 1)
  }

  /** The parameters a transition at the next block brings in. */
  function Transition(c: Consensus, chain: seq<Header>): Option<Entry>
    requires c.epochLength > 0 && |chain| > 0
  {
    if |chain| % c.epochLength != 0 then None else
    WholeEpoch(c.epochLength, |chain|);
    Winner(c, chain, |chain|)
  }

  ghost predicate EnoughVotes(c: Consensus, chain: seq<Header>, root: nat)
    requires c.epochLength <= |chain|
  {
    root != 0 && Votes(c, chain, |chain| - c.epochLength, root) >= Needed(c)
  }

  lemma {:induction false} VotesGrow(c: Consensus, chain: seq<Header>, low: nat, high: nat, root: nat)
    requires low <= high <= |chain|
    ensures Votes(c, chain, low, root) >= Votes(c, chain, high, root)
    decreases high - low
  {
    if low < high { VotesGrow(c, chain, low + 1, high, root); }
  }

  /** A winner was proposed in the epoch, and its root has enough votes in it. */
  lemma {:induction false} WinnerHasVotes(c: Consensus, chain: seq<Header>, h: nat)
    requires c.epochLength <= |chain| && |chain| - c.epochLength <= h <= |chain|
    ensures var w := Winner(c, chain, h);
      w.Some? ==> EnoughVotes(c, chain, Root(c, w.value)) &&
                  exists k | |chain| - c.epochLength <= k < h :: chain[k].proposed == w.value
    decreases h
  {
    if h > |chain| - c.epochLength {
      WinnerHasVotes(c, chain, h - 1);
      VotesGrow(c, chain, |chain| - c.epochLength, h - 1, Root(c, chain[h - 1].proposed));
    }
  }

  /** Without a winner no root has enough votes. */
  lemma {:induction false} NoWinnerNoVotes(c: Consensus, chain: seq<Header>, h: nat, root: nat)
    requires c.epochLength <= |chain| && |chain| - c.epochLength <= h <= |chain|
    requires Winner(c, chain, h).None? && root != 0 && Votes(c, chain, h, root) < Needed(c)
    ensures !EnoughVotes(c, chain, root)
    decreases h
  {
    if h > |chain| - c.epochLength { NoWinnerNoVotes(c, chain, h - 1, root); }
  }

  lemma {:induction false} VotesShared(c: Consensus, chain: seq<Header>, low: nat, a: nat, b: nat)
    requires low <= |chain| && a != b
    ensures Votes(c, chain, low, a) + Votes(c, chain, low, b) <= |chain| - low
    decreases |chain| - low
  {
    if low < |chain| { VotesShared(c, chain, low + 1, a, b); }
  }

  /** There is a transition exactly when some root has enough votes. */
  lemma TransitionIff(c: Consensus, chain: seq<Header>)
    requires c.epochLength > 0 && |chain| > 0 && |chain| % c.epochLength == 0
    ensures c.epochLength <= |chain|
    ensures Transition(c, chain).Some? <==> exists root :: EnoughVotes(c, chain, root)
    ensures Transition(c, chain).Some? ==> EnoughVotes(c, chain, Root(c, Transition(c, chain).value))
  {
    WholeEpoch(c.epochLength, |chain|);
    WinnerHasVotes(c, chain, |chain|);
    if Transition(c, chain).None? {
      forall root ensures !EnoughVotes(c, chain, root) {
        if root != 0 { NoWinnerNoVotes(c, chain, |chain|, root); }
      }
    }
  }

  /** Whatever order the votes are walked in, at most one root can win; so from three blocks up to 2^30. */
  lemma WinnerUnique(c: Consensus, chain: seq<Header>, a: nat, b: nat)
    requires c.epochLength <= |chain| && 2 * Needed(c) > c.epochLength
    requires EnoughVotes(c, chain, a) && EnoughVotes(c, chain, b)
    ensures a == b
  {
    if a != b { VotesShared(c, chain, |chain| - c.epochLength, a, b); }
  }

  lemma MajorityLengths(c: Consensus)
    requires 0 < c.epochLength < 0x4000_0000
    ensures 2 * Needed(c) > c.epochLength <==> c.epochLength != 2
  {
  }

  /** An epoch in which the later blocks vote for one entry and the others for another. */
  function Split(c: Consensus, a: Entry, b: Entry): seq<Header> {
    seq(c.epochLength, i => Header(0, [], Null, if i < Needed(c) then a else b))
  }

  lemma {:induction false} SplitVotes(c: Consensus, a: Entry, b: Entry, low: nat)
    requires low <= c.epochLength && Root(c, a) != Root(c, b) && Needed(c) <= c.epochLength
    ensures Votes(c, Split(c, a, b), low, Root(c, b)) == c.epochLength - (if low < Needed(c) then Needed(c) else low)
    ensures Votes(c, Split(c, a, b), low, Root(c, a)) == if low < Needed(c) then Needed(c) - low else 0
    decreases c.epochLength - low
  {
    if low < c.epochLength { SplitVotes(c, a, b, low + 1); }
  }

  /** With any other epoch length the order decides: two roots can both have enough votes. */
  lemma WinnerNotUnique(c: Consensus, a: Entry, b: Entry)
    requires 0 < c.epochLength && 2 * Needed(c) <= c.epochLength
    requires Root(c, a) != 0 && Root(c, b) != 0 && Root(c, a) != Root(c, b)
    ensures EnoughVotes(c, Split(c, a, b), Root(c, a)) && EnoughVotes(c, Split(c, a, b), Root(c, b))
    ensures Transition(c, Split(c, a, b)) == Some(b)
  {
    SplitVotes(c, a, b, 0);
    LaterWins(c, a, b, c.epochLength);
  }

  /** Walking down from the tip, the entry of the later blocks is the first to have enough votes. */
  lemma {:induction false} LaterWins(c: Consensus, a: Entry, b: Entry, h: nat)
    requires 0 < c.epochLength && 2 * Needed(c) <= c.epochLength && c.epochLength - Needed(c) < h <= c.epochLength
    requires Root(c, b) != 0 && Root(c, a) != Root(c, b)
    ensures Winner(c, Split(c, a, b), h) == Some(b)
    decreases h
  {
    SplitVotes(c, a, b, h - 1);
    if c.epochLength - Needed(c) < h - 1 { LaterWins(c, a, b, h - 1); }
  }

  // ----- The parameters of the next block -----

  /** The block whose parameters hold on when there is no transition. */
  function EpochStart(c: Consensus, next: nat): (start: nat)
    requires c.epochLength > 0 && next > 0
    ensures start < next
  {
    WholeEpoch(c.epochLength, next);
    var age := next % c.epochLength;
    var start := if age == 0 then next - c.epochLength else next - age;
    if c.startsAtOne && start == 0 && next > 1 then 1 else start
  }

  function Carried(c: Consensus, start: Header): Entry {
    if start.DynaFed() then start.current else Legacy(c, start.challenge)
  }

  function FullParameters(c: Consensus, chain: seq<Header>): Entry
    requires c.epochLength > 0 && |chain| > 0
  {
    match Transition(c, chain)
    case Some(winner) => winner
    case None => Carried(c, chain[EpochStart(c, |chain|)])
  }

  /** What the next block is to publish: everything at the start of an epoch and right after activation. */
  function CurrentParameters(c: Consensus, chain: seq<Header>): Entry
    requires c.epochLength > 0 && |chain| > 0
  {
    var entry := FullParameters(c, chain);
    if |chain| % c.epochLength == 0 || !chain[|chain| - 1].DynaFed() then entry else Compacted(c, entry)
  }

  // ----- A chain of blocks that publish what is computed -----

  /** The genesis block is from before dynamic federations; every block that is not passed the header check. */
  ghost predicate Published(c: Consensus, chain: seq<Header>)
    requires c.epochLength > 0
  {
    && |chain| > 0 && !chain[0].DynaFed()
    && forall h | 0 < h < |chain| && chain[h].DynaFed() :: Same(chain[h].current, CurrentParameters(c, chain[..h]))
  }

  /** The full parameters enforced at a height. */
  function Enforced(c: Consensus, chain: seq<Header>, h: nat): Entry
    requires c.epochLength > 0 && 0 < h <= |chain|
  {
    FullParameters(c, chain[..h])
  }

  /** The block that keeps the parameters of the epoch that starts at s. */
  function Keeper(c: Consensus, s: nat): nat {
    if c.startsAtOne && s == 0 then 1 else s
  }

  /** A dynamic block is under the parameters its epoch's keeper holds. */
  lemma KeeperAgrees(c: Consensus, chain: seq<Header>, s: nat, h: nat)
    requires c.epochLength > 0 && Published(c, chain) && s % c.epochLength == 0
    requires 0 < h < |chain| && chain[h].DynaFed() && s <= h < s + c.epochLength
    ensures Keeper(c, s) <= h && Same(Carried(c, chain[Keeper(c, s)]), Enforced(c, chain, h))
  {
    AgeInEpoch(c.epochLength, s, h);
    assert Same(chain[h].current, CurrentParameters(c, chain[..h]));
  }

  /** In one epoch all dynamic blocks are under the same parameters. */
  lemma EpochHasOneSet(c: Consensus, chain: seq<Header>, h: nat, k: nat)
    requires c.epochLength > 0 && Published(c, chain)
    requires 0 < h < |chain| && 0 < k < |chain| && chain[h].DynaFed() && chain[k].DynaFed()
    requires h / c.epochLength == k / c.epochLength
    ensures Same(Enforced(c, chain, h), Enforced(c, chain, k))
  {
    var s := h / c.epochLength * c.epochLength;
    StartOfEpoch(c.epochLength, h);
    StartOfEpoch(c.epochLength, k);
    KeeperAgrees(c, chain, s, h);
    KeeperAgrees(c, chain, s, k);
  }

  /**
    Main theorem. After a dynamic block the parameters change only at the start of an epoch,
    and only to an entry proposed in the epoch before whose root has enough of its votes.
  */
  lemma ChangeNeedsVotes(c: Consensus, chain: seq<Header>, h: nat)
    requires c.epochLength > 0 && Published(c, chain)
    requires 0 < h < |chain| && chain[h].DynaFed()
    requires !Same(Enforced(c, chain, h + 1), Enforced(c, chain, h))
    ensures (h + 1) % c.epochLength == 0 && c.epochLength <= h + 1
    ensures EnoughVotes(c, chain[..h + 1], Root(c, Enforced(c, chain, h + 1)))
    ensures exists k | h + 1 - c.epochLength <= k <= h :: chain[k].proposed == Enforced(c, chain, h + 1)
  {
    var next := chain[..h + 1];
    StartOfEpoch(c.epochLength, h);
    StartOfEpoch(c.epochLength, h + 1);
    NextEpoch(c.epochLength, h);
    KeeperAgrees(c, chain, h / c.epochLength * c.epochLength, h);
    if (h + 1) % c.epochLength == 0 {
      WholeEpoch(c.epochLength, h + 1);
      WinnerHasVotes(c, next, h + 1);
    }
  }

  /** And a transition does take place: the block after the vote is under the winning entry. */
  lemma VotesChange(c: Consensus, chain: seq<Header>, h: nat, root: nat)
    requires c.epochLength > 0 && 2 * Needed(c) > c.epochLength
    requires 0 < h <= |chain| && h % c.epochLength == 0 && c.epochLength <= h
    requires EnoughVotes(c, chain[..h], root)
    ensures Root(c, Enforced(c, chain, h)) == root
  {
    TransitionIff(c, chain[..h]);
    WinnerUnique(c, chain[..h], root, Root(c, Enforced(c, chain, h)));
  }

  /** What a block publishes commits to the parameters it is under, when those are in full. */
  lemma PublishedRoot(c: Consensus, chain: seq<Header>)
    requires c.epochLength > 0 && |chain| > 0 && FullParameters(c, chain).Full?
    ensures Root(c, CurrentParameters(c, chain)) == Root(c, FullParameters(c, chain))
  {
    CompactedRoot(c, FullParameters(c, chain));
  }

  // ----- What is published, and in which form -----

  /**
    Parameters in full are published in short exactly inside an epoch and after a dynamic
    block, with the same signing script and limit; otherwise they are published as they are.
  */
  lemma PublishedForm(c: Consensus, chain: seq<Header>)
    requires c.epochLength > 0 && |chain| > 0 && FullParameters(c, chain).Full?
    ensures var full, entry := FullParameters(c, chain), CurrentParameters(c, chain);
      && (entry.Compact? <==> |chain| % c.epochLength != 0 && chain[|chain| - 1].DynaFed())
      && (!entry.Compact? ==> entry == full)
      && !entry.Null? && entry.signblockScript == full.signblockScript && entry.witnessLimit == full.witnessLimit
  {
  }

  /** Votes are for nothing or for parameters in full. */
  ghost predicate FullProposals(chain: seq<Header>) {
    forall h | 0 <= h < |chain| :: !chain[h].proposed.Compact?
  }

  /** Although most blocks publish them in short, the parameters in force are always known in full. */
  lemma {:induction false} InForceIsFull(c: Consensus, chain: seq<Header>, h: nat)
    requires c.epochLength > 0 && Published(c, chain) && FullProposals(chain) && 0 < h <= |chain|
    ensures Enforced(c, chain, h).Full?
    decreases h
  {
    var before := chain[..h];
    if Transition(c, before).Some? {
      WholeEpoch(c.epochLength, h);
      WinnerHasVotes(c, before, h);
    } else {
      var k := EpochStart(c, h);
      if chain[k].DynaFed() {
        KeeperStarts(c, h);
        InForceIsFull(c, chain, k);
        assert Same(chain[k].current, CurrentParameters(c, chain[..k]));
      }
    }
  }

  /** The block looked up starts its epoch, or is the first after the genesis block. */
  lemma KeeperStarts(c: Consensus, next: nat)
    requires c.epochLength > 0 && next > 0
    ensures EpochStart(c, next) % c.epochLength == 0 || EpochStart(c, next) == 1
  {
    StartOfEpoch(c.epochLength, next);
    if next % c.epochLength == 0 {
      WholeEpoch(c.epochLength, next);
      Remainder(next - c.epochLength, c.epochLength, next / c.epochLength - 1, 0);
    }
  }

  /** Every dynamic block publishes the parameters in force, in short exactly inside an epoch after another one. */
  lemma BlockPublishes(c: Consensus, chain: seq<Header>, h: nat)
    requires c.epochLength > 0 && Published(c, chain) && FullProposals(chain)
    requires 0 < h < |chain| && chain[h].DynaFed()
    ensures var full, entry := Enforced(c, chain, h), chain[h].current;
      && full.Full?
      && (entry.Compact? <==> h % c.epochLength != 0 && chain[h - 1].DynaFed())
      && (!entry.Compact? ==> entry == full)
      && !entry.Null? && entry.signblockScript == full.signblockScript && entry.witnessLimit == full.witnessLimit
  {
    InForceIsFull(c, chain, h);
    PublishedForm(c, chain[..h]);
    assert Same(chain[h].current, CurrentParameters(c, chain[..h]));
  }

  /** Four votes in five, rounded down, and at least one. */
  lemma FourFifths(c: Consensus)
    requires 2 <= c.epochLength < 0x4000_0000
    ensures 5 * Needed(c) <= 4 * c.epochLength < 5 * (Needed(c) + 1)
  {
  }

  /**
    Without enough votes the block that starts the epoch decides, or the one that started the
    epoch before; a chain that starts with dynamic federations asks its first block instead of
    the genesis block.
  */
  lemma CarriedOver(c: Consensus, chain: seq<Header>, h: nat, s: nat)
    requires c.epochLength > 0 && 0 < h <= |chain| && s % c.epochLength == 0 && s < h <= s + c.epochLength
    requires forall root | h == s + c.epochLength :: !EnoughVotes(c, chain[..h], root)
    ensures Enforced(c, chain, h) ==
      var start := chain[if s == 0 && h > 1 && c.startsAtOne then 1 else s];
      if start.current.Null? && start.proposed.Null? then
        Full(c.witnessProgram(start.challenge), c.maxBlockSignatureSize,
             if c.startP2wsh then c.witnessProgram(c.fedpegScript) else c.scriptHash(c.witnessProgram(c.fedpegScript)),
             c.fedpegScript, c.firstExtensionSpace)
      else start.current
  {
    if h == s + c.epochLength {
      Remainder(h, c.epochLength, s / c.epochLength + 1, 0);
      TransitionIff(c, chain[..h]);
    } else {
      AgeInEpoch(c.epochLength, s, h);
    }
  }

  // ----- Epochs -----

  lemma Remainder(n: nat, length: nat, q: int, r: int)
    requires length > 0 && n == q * length + r && 0 <= r < length
    ensures n % length == r && n / length == q
  {
    var d := q - n / length;
    assert d * length == n % length - r;
    assert d >= 1 ==> d * length >= length;
    assert d <= -1 ==> d * length + length <= 0;
  }

  lemma WholeEpoch(length: nat, n: nat)
    requires length > 0 && n > 0
    ensures n % length <= n && (n % length == 0 ==> length <= n)
  {
    if n < length { Remainder(n, length, 0, n); }
  }

  lemma StartOfEpoch(length: nat, h: nat)
    requires length > 0
    ensures var s := h / length * length; s <= h < s + length && s % length == 0 && h % length == h - s
  {
    Remainder(h / length * length, length, h / length, 0);
  }

  lemma AgeInEpoch(length: nat, s: nat, h: nat)
    requires length > 0 && s % length == 0 && s <= h < s + length
    ensures h % length == h - s
  {
    Remainder(h, length, s / length, h - s);
  }

  lemma NextEpoch(length: nat, h: nat)
    requires length > 0
    ensures if (h + 1) % length == 0 then h / length * length == h + 1 - length
            else (h + 1) / length == h / length
  {
    var s := h / length * length;
    StartOfEpoch(length, h);
    if h + 1 < s + length {
      Remainder(h + 1, length, h / length, h + 1 - s);
    } else {
      Remainder(h + 1, length, h / length + 1, 0);
    }
  }

  // ----- The functions on the block index -----

  function Count(tally: map<nat, nat>, root: nat): nat {
    if root in tally then tally[root] else 0
  }

  method NextBlockIsParameterTransition(c: Consensus, prev: BlockIndex) returns (winning: Option<Entry>)
    requires c.epochLength > 0 && prev.Valid()
    ensures winning == Transition(c, prev.Line())
  {
    hide Root, Threshold, BlockIndex.Valid;
    var next := prev.nHeight + 1;
    if next % c.epochLength != 0 { return None; }
    WholeEpoch(c.epochLength, next);
    ghost var chain := prev.Line();
    var tally: map<nat, nat> := map[];
    var height := next - 1;
    while height >= next - c.epochLength
      invariant next - c.epochLength - 1 <= height < next == |chain|
      invariant forall root :: Count(tally, root) == Votes(c, chain, height + 1, root)
      invariant Winner(c, chain, height + 1) == Winner(c, chain, next)
    {
      var block := prev.GetAncestor(height);
      assert block != null;
      LineIsAncestors(prev, height);
      var proposal := block.header.proposed;
      var root := Root(c, proposal);
      ghost var before := tally;
      tally := tally[root := Count(tally, root) + 1];
      assert forall r :: Count(tally, r) == Count(before, r) + if r == root then 1 else 0;
      assert tally[root] == Votes(c, chain, height, root);
      if root != 0 && tally[root] >= Threshold(c) { return Some(proposal); }
      height := height - 1;
    }
    return None;
  }

  method ComputeNextBlockFullCurrentParameters(c: Consensus, prev: BlockIndex) returns (entry: Entry)
    requires c.epochLength > 0 && prev.Valid()
    ensures entry == FullParameters(c, prev.Line())
  {
    var next := prev.nHeight + 1;
    var age := next % c.epochLength;
    var winning := NextBlockIsParameterTransition(c, prev);
    if winning.Some? {
      assert age == 0;
      return winning.value;
    }
    WholeEpoch(c.epochLength, next);
    var start := next - age;
    if age == 0 { start := start - c.epochLength; }
    if c.startsAtOne && start == 0 && next > 1 { start := 1; }
    var block := prev.GetAncestor(start);
    assert block != null;
    LineIsAncestors(prev, start);
    entry := if !block.header.DynaFed() then Legacy(c, block.header.challenge) else block.header.current;
  }

  method ComputeNextBlockCurrentParameters(c: Consensus, prev: BlockIndex) returns (entry: Entry)
    requires c.epochLength > 0 && prev.Valid()
    ensures entry == CurrentParameters(c, prev.Line())
    ensures FullParameters(c, prev.Line()).Full? ==>
      (entry.Compact? <==> (prev.nHeight + 1) % c.epochLength != 0 && prev.header.DynaFed())
  {
    entry := ComputeNextBlockFullCurrentParameters(c, prev);
    var age := (prev.nHeight + 1) % c.epochLength;
    if !(age == 0 || !prev.header.DynaFed()) { entry := Compacted(c, entry); }
  }
}
