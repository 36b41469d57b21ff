/**
  The tree of block index entries and the active chain.

  Entries never change once built, so their fields are constants. A skip pointer, when there
  is one, leads to the ancestor at the skip height.
*/
module Chain {
  import opened Headers

  function Max(a: nat, b: nat): nat {
    if a < b then b else a
  }

  /** Turn the lowest one bit of a number into a zero. */
  function InvertLowestOne(n: nat): (r: nat)
    ensures r <= n && (n > 0 ==> r < n)
  {
    if n == 0 then 0 else if n % 2 == 1 then n - 1 else 2 * InvertLowestOne(n / 2)
  }

  /** An odd number times a power of two loses exactly that power of two. */
  lemma {:induction false} LowestOne(m: nat, k: nat)
    ensures InvertLowestOne((2 * m + 1) * TwoTo(k)) == 2 * m * TwoTo(k)
    decreases k
  {
    if k > 0 {
      LowestOne(m, k - 1);
      var half := (2 * m + 1) * TwoTo(k - 1);
      Twice(2 * m + 1, TwoTo(k - 1));
      Twice(2 * m, TwoTo(k - 1));
      EvenStep(half);
    }
  }

  lemma Twice(a: nat, t: nat)
    ensures a * (2 * t) == 2 * (a * t)
  {
  }

  lemma EvenStep(half: nat)
    ensures InvertLowestOne(2 * half) == 2 * InvertLowestOne(half)
  {
  }

  /** The height a skip pointer leads to. */
  function GetSkipHeight(height: nat): (r: nat)
    ensures height > 0 ==> r < height
  {
    if height < 2 then 0
    else if height % 2 == 1 then InvertLowestOne(InvertLowestOne(height - 1)) + 1
    else InvertLowestOne(height)
  }

  class BlockIndex {
    const pprev: BlockIndex?
    const pskip: BlockIndex?
    const nHeight: nat
    const header: Header
    const nTimeMax: nat

    ghost predicate Valid()
      decreases nHeight, 0
    {
      && (pprev == null <==> nHeight == 0)
      && (pprev != null ==> pprev.nHeight == nHeight - 1 && pprev.Valid())
      && nTimeMax == (if pprev != null then Max(pprev.nTimeMax, header.time) else header.time)
      && (pskip != null ==> pprev != null && pskip == pprev.Ancestor(GetSkipHeight(nHeight)))
    }

    /** The ancestor at a height, by walking back one block at a time. */
    ghost function Ancestor(height: nat): (a: BlockIndex)
      requires Valid() && height <= nHeight
      ensures a.nHeight == height && a.Valid()
      decreases nHeight, 1
    {
      if height == nHeight then this else pprev.Ancestor(height)
    }

    /** The headers of the ancestors, the genesis block first. */
    ghost function Line(): (line: seq<Header>)
      requires Valid()
      ensures |line| == nHeight + 1
      decreases nHeight
    {
      (if pprev == null then [] else pprev.Line()) + [header]
    }

    constructor Genesis(h: Header)
      ensures Valid() && pprev == null && header == h
    {
      pprev := null;
      pskip := null;
      nHeight := 0;
      header := h;
      nTimeMax := h.time;
    }

    /** A new block on top of another, with its skip pointer built. */
    constructor Extend(prev: BlockIndex, h: Header)
      requires prev.Valid()
      ensures Valid() && pprev == prev && pskip != null && header == h
    {
      pprev := prev;
      header := h;
      nTimeMax := Max(prev.nTimeMax, h.time);
      nHeight := prev.nHeight + 1;
      var skip := prev.GetAncestor(GetSkipHeight(prev.nHeight + 1));
      pskip := skip;
    }

    /** The skip list finds what the plain walk finds, and nothing outside its range. */
    method GetAncestor(height: int) returns (a: BlockIndex?)
      requires Valid()
      ensures a == null <==> height < 0 || height > nHeight
      ensures a != null ==> a == Ancestor(height)
    {
      if height > nHeight || height < 0 { return null; }
      var walk: BlockIndex := this;
      var heightWalk := nHeight;
      while heightWalk > height
        invariant walk.Valid() && walk.nHeight == heightWalk && height <= heightWalk <= nHeight
        invariant walk.Ancestor(height) == Ancestor(height)
        decreases heightWalk
      {
        var heightSkip := GetSkipHeight(heightWalk);
        var heightSkipPrev := GetSkipHeight(heightWalk - 1);
        if walk.pskip != null &&
           (heightSkip == height ||
            (heightSkip > height && !(heightSkipPrev < heightSkip - 2 && heightSkipPrev >= height))) {
          AncestorOfAncestor(walk.pprev, heightSkip, height);
          walk := walk.pskip;
          heightWalk := heightSkip;
        } else {
          assert walk.pprev != null;
          walk := walk.pprev;
          heightWalk := heightWalk - 1;
        }
      }
      return walk;
    }
  }

  lemma {:induction false} AncestorOfAncestor(b: BlockIndex, high: nat, low: nat)
    requires b.Valid() && low <= high <= b.nHeight
    ensures b.Ancestor(high).Ancestor(low) == b.Ancestor(low)
    decreases b.nHeight
  {
    if high < b.nHeight { AncestorOfAncestor(b.pprev, high, low); }
  }

  lemma {:induction false} LineIsAncestors(b: BlockIndex, height: nat)
    requires b.Valid() && height <= b.nHeight
    ensures b.Line()[height] == b.Ancestor(height).header
    ensures b.Ancestor(height).Line() == b.Line()[..height + 1]
    decreases b.nHeight
  {
    if height < b.nHeight { LineIsAncestors(b.pprev, height); }
  }

  /** The time a block carries along is the latest among its ancestors, so it never falls. */
  lemma {:induction false} TimeMaxIsLatest(b: BlockIndex, height: nat)
    requires b.Valid() && height <= b.nHeight
    ensures b.Ancestor(height).header.time <= b.Ancestor(height).nTimeMax <= b.nTimeMax
    decreases b.nHeight
  {
    if height < b.nHeight { TimeMaxIsLatest(b.pprev, height); }
  }

  /** Whether one block is another or one of its ancestors. */
  ghost predicate IsAncestor(a: BlockIndex, b: BlockIndex)
    requires b.Valid()
  {
    a.nHeight <= b.nHeight && b.Ancestor(a.nHeight) == a
  }

  /** Blocks that meet once share everything below. */
  lemma SharedBelow(a: BlockIndex, b: BlockIndex, high: nat, low: nat)
    requires a.Valid() && b.Valid() && low <= high <= a.nHeight && high <= b.nHeight
    requires a.Ancestor(high) == b.Ancestor(high)
    ensures a.Ancestor(low) == b.Ancestor(low)
  {
    AncestorOfAncestor(a, high, low);
    AncestorOfAncestor(b, high, low);
  }

  class ActiveChain {
    var vChain: seq<BlockIndex?>

    /** The entries are the ancestors of the last one. */
    ghost predicate Valid()
      reads this
    {
      |vChain| > 0 ==> Holds(vChain[|vChain| - 1])
    }

    ghost predicate Holds(tip: BlockIndex?)
      reads this
    {
      && tip != null && tip.Valid() && |vChain| == tip.nHeight + 1
      && forall h: nat | h < |vChain| :: vChain[h] == tip.Ancestor(h)
    }

    constructor ()
      ensures Valid() && vChain == []
    {
      vChain := [];
    }

    function At(height: int): BlockIndex?
      reads this
    {
      if height < 0 || height >= |vChain| then null else vChain[height]
    }

    predicate Contains(b: BlockIndex)
      reads this
    {
      At(b.nHeight) == b
    }

    function Height(): int
      reads this
    {
      |vChain| - 1
    }

    lemma TipValid()
      requires Valid()
      ensures |vChain| > 0 ==> vChain[|vChain| - 1] != null && vChain[|vChain| - 1].Valid()
    {
    }

    /** A block on the chain has its ancestors there. */
    lemma OnChain(b: BlockIndex, height: nat)
      requires Valid() && b.Valid() && Contains(b) && height <= b.nHeight
      ensures At(height) == b.Ancestor(height)
    {
      AncestorOfAncestor(vChain[|vChain| - 1], b.nHeight, height);
    }

    /** Afterwards the chain holds exactly the ancestors of the new tip. */
    method SetTip(tip: BlockIndex?)
      requires Valid() && (tip != null ==> tip.Valid())
      modifies this
      ensures Valid()
      ensures if tip == null then vChain == [] else Holds(tip)
    {
      if tip == null {
        vChain := [];
        return;
      }
      ghost var before := vChain;
      vChain := if tip.nHeight + 1 <= |vChain| then vChain[..tip.nHeight + 1]
                else vChain + seq(tip.nHeight + 1 - |vChain|, _ => null);
      var walk: BlockIndex? := tip;
      while walk != null && vChain[walk.nHeight] != walk
        invariant |vChain| == tip.nHeight + 1
        invariant walk != null ==> walk.Valid() && walk.nHeight <= tip.nHeight && walk == tip.Ancestor(walk.nHeight)
        invariant forall h: nat | h <= tip.nHeight && (walk != null ==> walk.nHeight < h) ::
          vChain[h] == tip.Ancestor(h)
        invariant walk != null ==> forall h: nat | h <= walk.nHeight ::
            vChain[h] == if h < |before| then before[h] else null
        decreases if walk == null then 0 else walk.nHeight + 1
      {
        vChain := vChain[walk.nHeight := walk];
        if walk.pprev != null { AncestorOfAncestor(tip, walk.nHeight, walk.nHeight - 1); }
        walk := walk.pprev;
      }
      if walk != null {
        // The old chain already held this block, and so its ancestors.
        ghost var oldTip := before[|before| - 1];
        forall h: nat | h <= walk.nHeight ensures vChain[h] == tip.Ancestor(h) {
          SharedBelow(oldTip, tip, walk.nHeight, h);
        }
      }
    }

    /** The highest block of the chain that the given block descends from. */
    method FindFork(b: BlockIndex?) returns (fork: BlockIndex?)
      requires Valid() && (b != null ==> b.Valid())
      ensures fork != null ==> b != null && IsAncestor(fork, b) && Contains(fork)
      ensures b != null ==>
        forall h: nat | h <= b.nHeight && Contains(b.Ancestor(h)) :: fork != null && h <= fork.nHeight
    {
      if b == null { return null; }
      fork := b;
      if b.nHeight > Height() {
        fork := b.GetAncestor(Height());
      }
      while fork != null && !Contains(fork)
        invariant fork != null ==> IsAncestor(fork, b)
        invariant forall h: nat | h <= b.nHeight && (fork != null ==> fork.nHeight < h) :: !Contains(b.Ancestor(h))
        decreases if fork == null then 0 else fork.nHeight + 1
      {
        if fork.pprev != null { AncestorOfAncestor(b, fork.nHeight, fork.nHeight - 1); }
        fork := fork.pprev;
      }
    }

    /**
      The block hashes sent to a peer, as blocks: ancestors of the given block at the heights
      LocatorHeights lists, whether looked up in the chain or through the skip list.
    */
    method GetLocator(b: BlockIndex?) returns (have: seq<BlockIndex>)
      requires Valid() && (b != null ==> b.Valid())
      ensures var from := if b != null then b else At(Height());
        if from == null then have == [] else
        && |have| == |LocatorHeights(from.nHeight, 1, 0)|
        && forall i | 0 <= i < |have| ::
             have[i].nHeight == LocatorHeights(from.nHeight, 1, 0)[i] && IsAncestor(have[i], from)
    {
      hide Valid, BlockIndex.Valid;
      var step: nat := 1;
      have := [];
      var walk := if b != null then b else At(Height());
      if walk == null { return; }
      TipValid();
      ghost var from: BlockIndex := walk;
      ghost var heights := LocatorHeights(from.nHeight, 1, 0);
      while walk != null
        invariant |have| <= |heights|
        invariant forall i | 0 <= i < |have| :: have[i].nHeight == heights[i] && IsAncestor(have[i], from)
        invariant walk == null ==> |have| == |heights|
        invariant walk != null ==> IsAncestor(walk, from) && step > 0
        invariant walk != null ==> heights[|have|..] == LocatorHeights(walk.nHeight, step, |have|)
        decreases if walk == null then 0 else walk.nHeight + 1
      {
        have := have + [walk];
        if walk.nHeight == 0 { break; }
        var height := if walk.nHeight - step > 0 then walk.nHeight - step else 0;
        AncestorOfAncestor(from, walk.nHeight, height);
        assert heights[|have|..] == heights[|have| - 1..][1..];
        if Contains(walk) {
          OnChain(walk, height);
          walk := At(height);
        } else {
          walk := walk.GetAncestor(height);
        }
        if |have| > 10 { step := step * 2; }
      }
    }

    /** Whether a block lies before the place searched for. */
    predicate Before(i: nat, time: int, height: int)
      requires i < |vChain| && vChain[i] != null
      reads this
    {
      vChain[i].nTimeMax < time || vChain[i].nHeight < height
    }

    lemma BeforeIsPrefix(i: nat, j: nat, time: int, height: int)
      requires Valid() && i <= j < |vChain|
      ensures vChain[i] != null && vChain[j] != null
      ensures Before(j, time, height) ==> Before(i, time, height)
    {
      var tip := vChain[|vChain| - 1];
      AncestorOfAncestor(tip, j, i);
      TimeMaxIsLatest(tip.Ancestor(j), i);
    }

    /** The lowest block at the height or above whose chain has reached the time, if there is one. */
    ghost predicate Reached(r: BlockIndex?, time: int, height: int)
      reads this
    {
      && (r != null ==> r.Valid() && r.nTimeMax >= time && r.nHeight >= height && Contains(r))
      && forall h: nat | h < (if r == null then |vChain| else r.nHeight) ::
           vChain[h] != null && Before(h, time, height)
    }

    /** What the search is documented to find: the lowest block whose own time and height both suffice. */
    ghost predicate Earliest(r: BlockIndex?, time: int, height: int)
      reads this
    {
      && (r != null ==> r.header.time >= time && r.nHeight >= height && Contains(r))
      && forall h: nat | h < (if r == null then |vChain| else r.nHeight) ::
           vChain[h] != null && (vChain[h].header.time < time || vChain[h].nHeight < height)
    }

    /** The block at the height asked for is too early, and the chain below it had reached the time. */
    ghost predicate Overtaken(time: int, height: int)
      requires Valid()
      reads this
    {
      && 0 < height < |vChain|
      && vChain[height - 1].nTimeMax >= time
      && vChain[height].header.time < time
    }

    method FindEarliestAtLeast(time: int, height: int) returns (r: BlockIndex?)
      requires Valid()
      ensures Reached(r, time, height)
      ensures Earliest(r, time, height) <==> !Overtaken(time, height)
    {
      var low, high := 0, |vChain|;
      while low < high
        invariant 0 <= low <= high <= |vChain|
        invariant forall h: nat | h < low :: vChain[h] != null && Before(h, time, height)
        invariant high < |vChain| ==> vChain[high] != null && !Before(high, time, height)
      {
        var mid := (low + high) / 2;
        BeforeIsPrefix(mid, mid, time, height);
        if Before(mid, time, height) {
          forall h: nat | h <= mid ensures vChain[h] != null && Before(h, time, height) {
            BeforeIsPrefix(h, mid, time, height);
          }
          low := mid + 1;
        } else {
          high := mid;
        }
      }
      r := if low == |vChain| then null else vChain[low];
      EarliestExactly(r, time, height);
    }

    /** The search meets its documentation unless the query is overtaken; then it finds the block at that height. */
    lemma EarliestExactly(r: BlockIndex?, time: int, height: int)
      requires Valid() && Reached(r, time, height)
      ensures Earliest(r, time, height) <==> !Overtaken(time, height)
      ensures r != null ==> (r.header.time < time <==> Overtaken(time, height))
      ensures Overtaken(time, height) ==> r == vChain[height]
    {
      forall h: nat | h < |vChain|
        ensures vChain[h] != null && vChain[h].nHeight == h && vChain[h].header.time <= vChain[h].nTimeMax
        ensures h > 0 ==> vChain[h].nTimeMax == Max(vChain[h - 1].nTimeMax, vChain[h].header.time)
      {
        TimesOnChain(h);
      }
      if r != null && r.nHeight > 0 {
        assert Before(r.nHeight - 1, time, height);
      }
      if Overtaken(time, height) {
        assert !Before(height, time, height);
      }
    }

    lemma TimesOnChain(h: nat)
      requires Valid() && h < |vChain|
      ensures vChain[h] != null && vChain[h].nHeight == h && vChain[h].header.time <= vChain[h].nTimeMax
      ensures h > 0 ==> vChain[h].nTimeMax == Max(vChain[h - 1].nTimeMax, vChain[h].header.time)
    {
      if h > 0 { AncestorOfAncestor(vChain[|vChain| - 1], h, h - 1); }
    }
  }

  /** A query overtaken: asked for time 8 from height 1 on, the search finds a block of time 5. */
  method EarlierTimeFound(challenge: Script) returns (chain: ActiveChain, r: BlockIndex?)
    ensures chain.Valid() && |chain.vChain| == 2
    ensures chain.vChain[0].header.time == 10 && chain.vChain[1].header.time == 5
    ensures chain.Reached(r, 8, 1) && r == chain.vChain[1]
    ensures chain.Overtaken(8, 1) && !chain.Earliest(r, 8, 1)
  {
    var genesis := new BlockIndex.Genesis(Header(10, challenge, Null, Null));
    var block := new BlockIndex.Extend(genesis, Header(5, challenge, Null, Null));
    chain := new ActiveChain();
    chain.SetTip(block);
    assert chain.vChain[1] == block && chain.vChain[0] == genesis;
    r := chain.FindEarliestAtLeast(8, 1);
    chain.EarliestExactly(r, 8, 1);
  }

  /** One block back at a time at first, then in steps that double, and always the genesis block. */
  function LocatorHeights(height: nat, step: nat, sent: nat): (heights: seq<nat>)
    requires step > 0
    ensures |heights| > 0 && heights[0] == height
    decreases height
  {
    if height == 0 then [0] else
    [height] +
    LocatorHeights(if height > step then height - step else 0, if sent >= 10 then 2 * step else step, sent + 1)
  }

  /** The heights fall strictly, from the block down to the genesis block. */
  lemma {:induction false} LocatorDescends(height: nat, step: nat, sent: nat)
    requires step > 0
    ensures var heights := LocatorHeights(height, step, sent);
      && heights[|heights| - 1] == 0
      && (forall i | 0 <= i < |heights| :: heights[i] <= height)
      && (forall i, j | 0 <= i < j < |heights| :: heights[i] > heights[j])
    decreases height
  {
    if height > 0 {
      LocatorDescends(if height > step then height - step else 0, if sent >= 10 then 2 * step else step, sent + 1);
    }
  }

  function TwoTo(n: nat): (p: nat)
    ensures p > 0
  {
    if n == 0 then 1 else 2 * TwoTo(n - 1)
  }

  /** The step from the k-th height to the next: one for the first eleven, then twice as far each time. */
  function StepAt(k: nat): (step: nat)
    ensures step > 0
  {
    if k <= 10 then 1 else TwoTo(k - 10)
  }

  lemma NextStep(height: nat, sent: nat)
    ensures var heights := LocatorHeights(height, StepAt(sent), sent);
      if height == 0 then heights == [0] else
      var next := if height > StepAt(sent) then height - StepAt(sent) else 0;
      heights == [height] + LocatorHeights(next, StepAt(sent + 1), sent + 1)
  {
    assert StepAt(sent + 1) == if sent >= 10 then 2 * StepAt(sent) else StepAt(sent);
  }

  /** Each height is the one before less the step, or zero. */
  lemma {:induction false} LocatorSteps(height: nat, sent: nat, i: nat)
    requires i + 1 < |LocatorHeights(height, StepAt(sent), sent)|
    ensures var heights := LocatorHeights(height, StepAt(sent), sent);
      heights[i + 1] == if heights[i] > StepAt(sent + i) then heights[i] - StepAt(sent + i) else 0
    decreases i
  {
    NextStep(height, sent);
    if i > 0 { LocatorSteps(if height > StepAt(sent) then height - StepAt(sent) else 0, sent + 1, i - 1); }
  }

  /** So a locator is short: twelve hashes and one for each doubling of the height. */
  lemma {:induction false} LocatorShort(height: nat, sent: nat)
    ensures var n := |LocatorHeights(height, StepAt(sent), sent)|;
      sent + n > 13 && n > 2 ==> TwoTo(sent + n - 13) <= height
    decreases height
  {
    if height > 0 {
      NextStep(height, sent);
      LocatorShort(if height > StepAt(sent) then height - StepAt(sent) else 0, sent + 1);
    }
  }

  /** The highest block that both descend from, if there is one. */
  method LastCommonAncestor(a: BlockIndex, b: BlockIndex) returns (r: BlockIndex?)
    requires a.Valid() && b.Valid()
    ensures r != null ==> IsAncestor(r, a) && IsAncestor(r, b)
    ensures forall h: nat | h <= a.nHeight && h <= b.nHeight && a.Ancestor(h) == b.Ancestor(h) ::
      r != null && h <= r.nHeight
  {
    var pa: BlockIndex? := a;
    var pb: BlockIndex? := b;
    if a.nHeight > b.nHeight {
      pa := a.GetAncestor(b.nHeight);
    } else if b.nHeight > a.nHeight {
      pb := b.GetAncestor(a.nHeight);
    }
    while pa != pb && pa != null && pb != null
      invariant pa != null <==> pb != null
      invariant pa != null ==> IsAncestor(pa, a) && IsAncestor(pb, b) && pa.nHeight == pb.nHeight
      invariant forall h: nat | h <= a.nHeight && h <= b.nHeight && (pa != null ==> pa.nHeight < h) ::
        a.Ancestor(h) != b.Ancestor(h)
      decreases if pa == null then 0 else pa.nHeight + 1
    {
      if pa.pprev != null {
        AncestorOfAncestor(a, pa.nHeight, pa.nHeight - 1);
        AncestorOfAncestor(b, pb.nHeight, pb.nHeight - 1);
      }
      pa := pa.pprev;
      pb := pb.pprev;
    }
    assert pa == pb;
    return pa;
  }
}
