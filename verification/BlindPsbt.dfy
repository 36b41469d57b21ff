/**
  Blinding a transaction by several participants in turn.

  A participant blinds the outputs assigned to its inputs and leaves behind one scalar, the
  offset between what it blinded and what its inputs bring; the last one chooses its last
  blinder so that everything cancels. Proofs and commitments are not part of the model: an
  output is fully blinded once it has its secrets.
*/
module BlindPsbt {
  import opened Wrappers
  import opened BlindScalars

  datatype Secrets = Secrets(asset: nat, value: nat)

  datatype Input = Input(value: int, assetBlinder: nat, valueBlinder: nat)

  /** owner is the input whose owner is to blind the output. */
  datatype Output = Output(toBlind: bool, owner: Option<nat>, amount: int, secrets: Option<Secrets>) {
    predicate FullyBlinded() {
      toBlind && secrets.Some?
    }
  }

  /** offsets holds the scalars left behind, as a set visits them: in ascending order, without repetition. */
  datatype Psbt = Psbt(outputs: seq<Output>, offsets: seq<nat>)

  datatype Status = Ok | ScalarUnable | InvalidBlinder | NoBlindOutputs

  datatype Result<+T> = Go(value: T) | Stop(status: Status)

  /** The state of the loop over the outputs. */
  datatype Loop = Loop(psbt: Psbt, scalar: nat, blinded: nat, last: bool, ours: nat)

  // ----- The operation -----

  function CountBlinded(outputs: seq<Output>): nat {
    if outputs == [] then 0 else (if outputs[0].FullyBlinded() then 1 else 0) + CountBlinded(outputs[1..])
  }

  function CountToBlind(outputs: seq<Output>): nat {
    if outputs == [] then 0 else (if outputs[0].toBlind then 1 else 0) + CountToBlind(outputs[1..])
  }

  /** The scalar of the participant's own inputs, the first k inputs looked at. */
  function InputScalar(ours: map<nat, Input>, k: nat): Option<nat> {
    if k == 0 then Some(0) else
    match InputScalar(ours, k - 1)
    case None => None
    case Some(sum) =>
      if k - 1 !in ours then Some(sum)
      else ComputeAndAddToScalarOffset(sum, ours[k - 1].value, ours[k - 1].assetBlinder, ours[k - 1].valueBlinder)
  }

  /** One scalar after another taken away. */
  function SubtractAll(a: nat, offsets: seq<nat>): Option<nat>
    decreases |offsets|
  {
    if offsets == [] then Some(a) else
    match SubtractScalars(a, offsets[0])
    case None => None
    case Some(b) => SubtractAll(b, offsets[1..])
  }

  /** The value blinder of the very last output. */
  function LastBlinder(scalar: nat, inputScalar: nat, valueBlinder: nat, offsets: seq<nat>): Result<(nat, nat)> {
    match SubtractScalars(scalar, inputScalar)
    case None => Stop(ScalarUnable)
    case Some(difference) =>
      match SubtractScalars(valueBlinder, difference)
      case None => Stop(ScalarUnable)
      case Some(rest) =>
        match SubtractAll(rest, offsets)
        case None => Stop(ScalarUnable)
        case Some(blinder) => if blinder == 0 then Stop(InvalidBlinder) else Go((difference, blinder))
  }

  function WithSecrets(p: Psbt, i: nat, s: Secrets): Psbt
    requires i < |p.outputs|
  {
    p.(outputs := p.outputs[i := p.outputs[i].(secrets := Some(s))])
  }

  /** One turn of the loop; draw holds the random blinders for this output. */
  function BlindOutput(l: Loop, i: nat, ours: map<nat, Input>, inputScalar: nat, total: nat, draw: Secrets)
    : Result<Loop>
    requires i < |l.psbt.outputs|
  {
    var output := l.psbt.outputs[i];
    if !output.toBlind then Go(l)
    else if output.FullyBlinded() then Go(l.(ours := l.ours + 1))
    else if output.owner.None? || output.owner.value !in ours then Go(l)
    else
      match ComputeAndAddToScalarOffset(l.scalar, output.amount, draw.asset, draw.value)
      case None => Stop(ScalarUnable)
      case Some(scalar) =>
        if l.blinded + 1 != total then
          Go(Loop(WithSecrets(l.psbt, i, draw), scalar, l.blinded + 1, l.last, l.ours + 1))
        else
          match LastBlinder(scalar, inputScalar, draw.value, l.psbt.offsets)
          case Stop(status) => Stop(status)
          case Go((difference, blinder)) =>
            Go(Loop(WithSecrets(l.psbt, i, Secrets(draw.asset, blinder)).(offsets := []),
                    difference, l.blinded + 1, true, l.ours + 1))
  }

  /** The outputs from k on. */
  function BlindOutputs(l: Loop, k: nat, ours: map<nat, Input>, inputScalar: nat, total: nat, draws: seq<Secrets>)
    : Result<Loop>
    requires k <= |l.psbt.outputs| == |draws|
    decreases |l.psbt.outputs| - k
  {
    if k == |l.psbt.outputs| then Go(l) else
    match BlindOutput(l, k, ours, inputScalar, total, draws[k])
    case Stop(status) => Stop(status)
    case Go(next) => BlindOutputs(next, k + 1, ours, inputScalar, total, draws)
  }

  ghost predicate Ascending(offsets: seq<nat>) {
    forall i, j | 0 <= i < j < |offsets| :: offsets[i] < offsets[j]
  }

  /** A further element of an ordered set. */
  function Insert(offsets: seq<nat>, x: nat): (r: seq<nat>)
    ensures multiset(r) == multiset(offsets) + multiset{x}
    decreases |offsets|
  {
    if offsets == [] || x < offsets[0] then
      [x] + offsets
    else
      assert offsets == [offsets[0]] + offsets[1..];
      [offsets[0]] + Insert(offsets[1..], x)
  }

  lemma {:induction false} InsertAscending(offsets: seq<nat>, x: nat)
    requires Ascending(offsets) && x !in offsets
    ensures Ascending(Insert(offsets, x))
    decreases |offsets|
  {
    if offsets != [] && x > offsets[0] {
      InsertAscending(offsets[1..], x);
      var rest := Insert(offsets[1..], x);
      forall i | 0 <= i < |rest| ensures offsets[0] < rest[i] {
        assert rest[i] in multiset(rest);
        assert rest[i] == x || rest[i] in offsets[1..];
      }
    }
  }

  /** Leaving the offset behind: a set of scalars takes each value once. */
  function LeaveOffset(p: Psbt, offset: nat): Psbt {
    if offset in p.offsets then p else p.(offsets := Insert(p.offsets, offset))
  }

  function Finish(l: Loop, ours: map<nat, Input>, inputScalar: nat): Result<Psbt> {
    if !l.last && l.scalar != 0 then
      match SubtractScalars(l.scalar, inputScalar)
      case None => Stop(ScalarUnable)
      case Some(offset) =>
        if |ours| > 0 && l.ours == 0 then Stop(NoBlindOutputs) else Go(LeaveOffset(l.psbt, offset))
    else if |ours| > 0 && l.ours == 0 then Stop(NoBlindOutputs) else Go(l.psbt)
  }

  function Blind(p: Psbt, ours: map<nat, Input>, inputs: nat, draws: seq<Secrets>): Result<Psbt>
    requires |draws| == |p.outputs|
  {
    var blinded := CountBlinded(p.outputs);
    var total := CountToBlind(p.outputs);
    if blinded == total then Go(p) else
    match InputScalar(ours, inputs)
    case None => Stop(ScalarUnable)
    case Some(inputScalar) =>
      match BlindOutputs(Loop(p, 0, blinded, false, 0), 0, ours, inputScalar, total, draws)
      case Stop(status) => Stop(status)
      case Go(l) => Finish(l, ours, inputScalar)
  }

  // ----- Sums -----

  /** What the fully blinded outputs contribute. */
  ghost function OutSum(outputs: seq<Output>): int {
    if outputs == [] then 0 else
    (if outputs[0].FullyBlinded()
     then Offset(outputs[0].amount, outputs[0].secrets.value.asset, outputs[0].secrets.value.value) else 0)
    + OutSum(outputs[1..])
  }

  ghost function InSum(ours: map<nat, Input>, k: nat): int {
    if k == 0 then 0 else
    InSum(ours, k - 1) +
    if k - 1 in ours then Offset(ours[k - 1].value, ours[k - 1].assetBlinder, ours[k - 1].valueBlinder) else 0
  }

  ghost function Sum(offsets: seq<nat>): int {
    if offsets == [] then 0 else offsets[0] + Sum(offsets[1..])
  }

  lemma {:induction false} SumInsert(offsets: seq<nat>, x: nat)
    ensures Sum(Insert(offsets, x)) == Sum(offsets) + x
    decreases |offsets|
  {
    if offsets != [] && x >= offsets[0] {
      SumInsert(offsets[1..], x);
      assert Insert(offsets, x)[1..] == Insert(offsets[1..], x);
    } else {
      assert Insert(offsets, x)[1..] == offsets;
    }
  }

  /** An output that gets its secrets is counted and adds its offset. */
  lemma {:induction false} SecretsSet(outputs: seq<Output>, i: nat, s: Secrets)
    requires i < |outputs| && outputs[i].toBlind && outputs[i].secrets.None?
    ensures var after := outputs[i := outputs[i].(secrets := Some(s))];
      && OutSum(after) == OutSum(outputs) + Offset(outputs[i].amount, s.asset, s.value)
      && CountBlinded(after) == CountBlinded(outputs) + 1
      && CountToBlind(after) == CountToBlind(outputs)
    decreases |outputs|
  {
    var after := outputs[i := outputs[i].(secrets := Some(s))];
    if i == 0 {
      assert after[1..] == outputs[1..];
    } else {
      SecretsSet(outputs[1..], i - 1, s);
      assert after[1..] == outputs[1..][i - 1 := outputs[i].(secrets := Some(s))];
    }
  }

  /** The counts agree exactly when nothing is left to blind. */
  lemma {:induction false} AllBlinded(outputs: seq<Output>)
    ensures CountBlinded(outputs) <= CountToBlind(outputs)
    ensures CountBlinded(outputs) == CountToBlind(outputs) <==>
      forall i | 0 <= i < |outputs| :: outputs[i].toBlind ==> outputs[i].secrets.Some?
    decreases |outputs|
  {
    if outputs != [] {
      AllBlinded(outputs[1..]);
      assert forall i | 0 < i < |outputs| :: outputs[i] == outputs[1..][i - 1];
    }
  }

  // ----- Scalars that meet what the callers promise -----

  ghost predicate GoodInputs(ours: map<nat, Input>) {
    forall i | i in ours ::
      0 <= ours[i].value < ORDER && Canonical(ours[i].assetBlinder) && Canonical(ours[i].valueBlinder)
  }

  ghost predicate GoodAmounts(outputs: seq<Output>) {
    forall i | 0 <= i < |outputs| :: 0 <= outputs[i].amount < ORDER
  }

  ghost predicate GoodDraws(draws: seq<Secrets>) {
    forall i | 0 <= i < |draws| :: Canonical(draws[i].asset) && Canonical(draws[i].value)
  }

  ghost predicate GoodOffsets(offsets: seq<nat>) {
    forall i | 0 <= i < |offsets| :: Canonical(offsets[i])
  }

  lemma {:induction false} InputScalarCorrect(ours: map<nat, Input>, k: nat)
    requires GoodInputs(ours)
    ensures InputScalar(ours, k).Some? ==>
      Canonical(InputScalar(ours, k).value) && Cong(InputScalar(ours, k).value, InSum(ours, k))
  {
    if k > 0 {
      InputScalarCorrect(ours, k - 1);
      if InputScalar(ours, k - 1).Some? && k - 1 in ours {
        var sum, x := InputScalar(ours, k - 1).value, ours[k - 1];
        ComputeAndAddExact(sum, x.value, x.assetBlinder, x.valueBlinder);
        CongPlus(sum, InSum(ours, k - 1), Offset(x.value, x.assetBlinder, x.valueBlinder));
        if InputScalar(ours, k).Some? {
          CongTrans(InputScalar(ours, k).value, sum + Offset(x.value, x.assetBlinder, x.valueBlinder), InSum(ours, k));
        }
      }
    }
  }

  lemma {:induction false} SubtractAllCorrect(a: nat, offsets: seq<nat>)
    requires Canonical(a) && GoodOffsets(offsets)
    ensures SubtractAll(a, offsets).Some? ==>
      Canonical(SubtractAll(a, offsets).value) && Cong(SubtractAll(a, offsets).value, a - Sum(offsets))
    decreases |offsets|
  {
    if offsets != [] {
      SubtractScalarsExact(a, offsets[0]);
      if SubtractScalars(a, offsets[0]).Some? {
        var b := SubtractScalars(a, offsets[0]).value;
        SubtractAllCorrect(b, offsets[1..]);
        if SubtractAll(b, offsets[1..]).Some? {
          CongPlus(b, a - offsets[0], -Sum(offsets[1..]));
          CongTrans(SubtractAll(b, offsets[1..]).value, b - Sum(offsets[1..]), a - Sum(offsets));
        }
      }
    }
  }

  /** The last blinder makes its output cancel everything that is not yet accounted for. */
  lemma LastBlinderCorrect(scalar: nat, inputScalar: nat, valueBlinder: nat, offsets: seq<nat>)
    requires Canonical(scalar) && Canonical(inputScalar) && Canonical(valueBlinder) && GoodOffsets(offsets)
    ensures var r := LastBlinder(scalar, inputScalar, valueBlinder, offsets);
      r.Go? ==> (Canonical(r.value.0) && ValidKey(r.value.1)
                 && Cong(r.value.1, valueBlinder - (scalar - inputScalar) - Sum(offsets)))
  {
    SubtractScalarsExact(scalar, inputScalar);
    if SubtractScalars(scalar, inputScalar).Some? {
      var difference := SubtractScalars(scalar, inputScalar).value;
      SubtractScalarsExact(valueBlinder, difference);
      if SubtractScalars(valueBlinder, difference).Some? {
        var rest := SubtractScalars(valueBlinder, difference).value;
        SubtractAllCorrect(rest, offsets);
        LastChain(scalar - inputScalar, difference, valueBlinder, rest, Sum(offsets));
        if SubtractAll(rest, offsets).Some? {
          CongTrans(SubtractAll(rest, offsets).value, rest - Sum(offsets),
              valueBlinder - (scalar - inputScalar) - Sum(offsets));
        }
      }
    }
  }

  /**
    Subtraction never yields zero from scalars that are not all zero, so the status for a zero
    blinder is only reached when every scalar involved is zero; equal scalars fail earlier.
  */
  lemma ZeroBlinderNeedsZeros(scalar: nat, inputScalar: nat, valueBlinder: nat, offsets: seq<nat>)
    requires Canonical(scalar) && Canonical(inputScalar) && Canonical(valueBlinder) && GoodOffsets(offsets)
    ensures LastBlinder(scalar, inputScalar, valueBlinder, offsets) == Stop(InvalidBlinder) <==>
      scalar == 0 && inputScalar == 0 && valueBlinder == 0 && forall i | 0 <= i < |offsets| :: offsets[i] == 0
  {
    SubtractScalarsExact(scalar, inputScalar);
    if SubtractScalars(scalar, inputScalar).Some? {
      var difference := SubtractScalars(scalar, inputScalar).value;
      SubtractScalarsExact(valueBlinder, difference);
      if SubtractScalars(valueBlinder, difference).Some? {
        SubtractAllZero(SubtractScalars(valueBlinder, difference).value, offsets);
      }
    }
  }

  lemma {:induction false} SubtractAllZero(a: nat, offsets: seq<nat>)
    requires Canonical(a) && GoodOffsets(offsets)
    ensures SubtractAll(a, offsets) == Some(0) <==> a == 0 && forall i | 0 <= i < |offsets| :: offsets[i] == 0
    decreases |offsets|
  {
    if offsets != [] {
      SubtractScalarsExact(a, offsets[0]);
      if SubtractScalars(a, offsets[0]).Some? {
        SubtractAllZero(SubtractScalars(a, offsets[0]).value, offsets[1..]);
        assert forall i | 0 < i < |offsets| :: offsets[i] == offsets[1..][i - 1];
      }
    }
  }

  lemma LastChain(d: int, difference: int, v: int, rest: int, sum: int)
    requires Cong(difference, d) && Cong(rest, v - difference)
    ensures Cong(rest - sum, v - d - sum)
  {
  }

  /** What the loop keeps, started from p. */
  ghost predicate LoopInv(p: Psbt, l: Loop, inputScalar: nat, total: nat) {
    && |l.psbt.outputs| == |p.outputs| && GoodAmounts(l.psbt.outputs)
    && Canonical(l.scalar)
    && l.blinded == CountBlinded(l.psbt.outputs) && total == CountToBlind(l.psbt.outputs)
    && if l.last then
         && l.blinded == total && l.psbt.offsets == []
         && Cong(OutSum(l.psbt.outputs), OutSum(p.outputs) - Sum(p.offsets) + inputScalar)
       else
         && l.blinded < total && l.psbt.offsets == p.offsets
         && Cong(l.scalar, OutSum(l.psbt.outputs) - OutSum(p.outputs))
  }

  lemma BlindOutputKeeps(p: Psbt, l: Loop, i: nat, ours: map<nat, Input>, inputScalar: nat, total: nat, draw: Secrets)
    requires LoopInv(p, l, inputScalar, total) && i < |p.outputs| && GoodOffsets(p.offsets)
    requires Canonical(inputScalar) && Canonical(draw.asset) && Canonical(draw.value)
    ensures var r := BlindOutput(l, i, ours, inputScalar, total, draw);
      r.Go? ==> LoopInv(p, r.value, inputScalar, total)
  {
    var output := l.psbt.outputs[i];
    var r := BlindOutput(l, i, ours, inputScalar, total, draw);
    AllBlinded(l.psbt.outputs);
    hide Cong, ComputeAndAddToScalarOffset, LastBlinder, CountBlinded, CountToBlind, OutSum, Sum;
    if r.Go? && output.toBlind && output.secrets.None? && output.owner.Some? && output.owner.value in ours {
      ComputeAndAddExact(l.scalar, output.amount, draw.asset, draw.value);
      var scalar := ComputeAndAddToScalarOffset(l.scalar, output.amount, draw.asset, draw.value).value;
      if l.blinded + 1 != total {
        SecretsSet(l.psbt.outputs, i, draw);
        MidChain(scalar, l.scalar, Offset(output.amount, draw.asset, draw.value),
            OutSum(l.psbt.outputs) - OutSum(p.outputs));
      } else {
        LastBlinderCorrect(scalar, inputScalar, draw.value, l.psbt.offsets);
        var blinder := LastBlinder(scalar, inputScalar, draw.value, l.psbt.offsets).value.1;
        SecretsSet(l.psbt.outputs, i, Secrets(draw.asset, blinder));
        EndChain(scalar, l.scalar, output.amount * draw.asset, draw.value, blinder, inputScalar, Sum(p.offsets),
                 OutSum(p.outputs), OutSum(l.psbt.outputs));
      }
    }
  }

  lemma MidChain(scalar: int, before: int, offset: int, difference: int)
    requires Cong(scalar, before + offset) && Cong(before, difference)
    ensures Cong(scalar, difference + offset)
  {
  }

  lemma EndChain(scalar: int, before: int, product: int, v: int, blinder: int, input: int, sum: int, start: int,
      now: int)
    requires Cong(scalar, before + product + v) && Cong(before, now - start)
    requires Cong(blinder, v - (scalar - input) - sum)
    ensures Cong(now + product + blinder, start - sum + input)
  {
  }

  lemma {:induction false} BlindOutputsKeeps(
    p: Psbt, l: Loop, k: nat, ours: map<nat, Input>, inputScalar: nat, total: nat, draws: seq<Secrets>)
    requires LoopInv(p, l, inputScalar, total) && k <= |p.outputs| == |draws|
    requires GoodOffsets(p.offsets) && Canonical(inputScalar) && GoodDraws(draws)
    ensures var r := BlindOutputs(l, k, ours, inputScalar, total, draws);
      r.Go? ==> LoopInv(p, r.value, inputScalar, total)
    decreases |p.outputs| - k
  {
    if k < |p.outputs| {
      BlindOutputKeeps(p, l, k, ours, inputScalar, total, draws[k]);
      var r := BlindOutput(l, k, ours, inputScalar, total, draws[k]);
      if r.Go? {
        hide LoopInv;
        SameLength(p, r.value, inputScalar, total);
        BlindOutputsKeeps(p, r.value, k + 1, ours, inputScalar, total, draws);
      }
    }
  }

  lemma SameLength(p: Psbt, l: Loop, inputScalar: nat, total: nat)
    requires LoopInv(p, l, inputScalar, total)
    ensures |l.psbt.outputs| == |p.outputs|
  {
  }

  // ----- The balance -----

  /** The scalars left behind make up for the blinded outputs and the inputs accounted for. */
  ghost predicate Balanced(p: Psbt, accounted: int) {
    Cong(Sum(p.offsets), OutSum(p.outputs) - accounted)
  }

  ghost predicate Good(p: Psbt) {
    GoodAmounts(p.outputs) && GoodOffsets(p.offsets)
  }

  predicate Complete(p: Psbt) {
    CountBlinded(p.outputs) == CountToBlind(p.outputs)
  }

  /** The scalar a participant has gathered from its outputs when the loop ends. */
  function Gathered(p: Psbt, ours: map<nat, Input>, inputs: nat, draws: seq<Secrets>): Option<Loop>
    requires |draws| == |p.outputs|
  {
    match InputScalar(ours, inputs)
    case None => None
    case Some(inputScalar) =>
      var start := Loop(p, 0, CountBlinded(p.outputs), false, 0);
      match BlindOutputs(start, 0, ours, inputScalar, CountToBlind(p.outputs), draws)
      case Stop(_) => None
      case Go(l) => Some(l)
  }

  /**
    When a participant's inputs enter the balance: it blinded the last output, or it leaves a
    new offset for a scalar that is not zero, or it gathered nothing and its inputs weigh
    nothing either.
  */
  ghost predicate Accounts(p: Psbt, ours: map<nat, Input>, inputs: nat, draws: seq<Secrets>)
    requires |draws| == |p.outputs| && Gathered(p, ours, inputs, draws).Some?
  {
    var l := Gathered(p, ours, inputs, draws).value;
    var inputScalar := InputScalar(ours, inputs).value;
    if l.last then true
    else if l.scalar != 0 then
      SubtractScalars(l.scalar, inputScalar).Some? ==> SubtractScalars(l.scalar, inputScalar).value !in p.offsets
    else Cong(InSum(ours, inputs), 0)
  }

  /**
    One participant. Its inputs are accounted for if and only if Accounts holds; after the last
    blinder the outputs alone balance what has been accounted for.
  */
  lemma BlindBalances(p: Psbt, ours: map<nat, Input>, inputs: nat, draws: seq<Secrets>, accounted: int)
    requires |draws| == |p.outputs| && Good(p) && GoodInputs(ours) && GoodDraws(draws)
    requires Balanced(p, accounted) && !Complete(p) && Blind(p, ours, inputs, draws).Go?
    ensures var q := Blind(p, ours, inputs, draws).value;
      && Gathered(p, ours, inputs, draws).Some?
      && Good(q) && |q.outputs| == |p.outputs|
      && (Balanced(q, accounted + InSum(ours, inputs)) <==> Accounts(p, ours, inputs, draws))
      && (Complete(q) ==> q.offsets == [] && Cong(OutSum(q.outputs), accounted + InSum(ours, inputs)))
  {
    hide Gathered, Blind, Cong, SubtractScalars, CountBlinded, CountToBlind, InSum, GoodAmounts, InputScalar, OutSum;
    BlindRuns(p, ours, inputs, draws);
    var inputScalar := InputScalar(ours, inputs).value;
    var l := Gathered(p, ours, inputs, draws).value;
    AllBlinded(p.outputs);
    if l.last {
      LastBalance(p, l, inputScalar, InSum(ours, inputs), accounted);
    } else if l.scalar != 0 {
      SubtractScalarsExact(l.scalar, inputScalar);
      LeaveBalance(p, l, inputScalar, SubtractScalars(l.scalar, inputScalar).value, InSum(ours, inputs), accounted);
    } else {
      IdleBalance(Sum(p.offsets), OutSum(p.outputs), OutSum(l.psbt.outputs), accounted, InSum(ours, inputs));
    }
  }

  /** A call that returns Ok went through its loop and kept the loop invariant. */
  lemma BlindRuns(p: Psbt, ours: map<nat, Input>, inputs: nat, draws: seq<Secrets>)
    requires |draws| == |p.outputs| && Good(p) && GoodInputs(ours) && GoodDraws(draws)
    requires !Complete(p) && Blind(p, ours, inputs, draws).Go?
    ensures InputScalar(ours, inputs).Some? && Gathered(p, ours, inputs, draws).Some?
    ensures var inputScalar := InputScalar(ours, inputs).value;
      var l := Gathered(p, ours, inputs, draws).value;
      && Canonical(inputScalar) && Cong(inputScalar, InSum(ours, inputs))
      && LoopInv(p, l, inputScalar, CountToBlind(p.outputs))
      && Finish(l, ours, inputScalar) == Blind(p, ours, inputs, draws)
  {
    InputScalarCorrect(ours, inputs);
    AllBlinded(p.outputs);
    BlindOutputsKeeps(p, Loop(p, 0, CountBlinded(p.outputs), false, 0), 0, ours,
                      InputScalar(ours, inputs).value, CountToBlind(p.outputs), draws);
  }

  lemma LastBalance(p: Psbt, l: Loop, inputScalar: nat, input: int, accounted: int)
    requires Balanced(p, accounted) && Cong(inputScalar, input) && l.psbt.offsets == []
    requires Cong(OutSum(l.psbt.outputs), OutSum(p.outputs) - Sum(p.offsets) + inputScalar)
    ensures Cong(OutSum(l.psbt.outputs), accounted + input) && Balanced(l.psbt, accounted + input)
  {
    var s, o, q := Sum(p.offsets), OutSum(p.outputs), OutSum(l.psbt.outputs);
    assert Sum([]) == 0;
  }

  lemma InsertGood(offsets: seq<nat>, x: nat)
    requires GoodOffsets(offsets) && Canonical(x)
    ensures GoodOffsets(Insert(offsets, x))
  {
    var r := Insert(offsets, x);
    forall i | 0 <= i < |r| ensures Canonical(r[i]) {
      assert r[i] in multiset(r);
      assert r[i] == x || r[i] in offsets;
    }
  }

  lemma LeaveBalance(p: Psbt, l: Loop, inputScalar: nat, offset: nat, input: int, accounted: int)
    requires Balanced(p, accounted) && Cong(inputScalar, input) && l.psbt.offsets == p.offsets
    requires Cong(l.scalar, OutSum(l.psbt.outputs) - OutSum(p.outputs))
    requires ValidKey(offset) && Cong(offset, l.scalar - inputScalar) && GoodOffsets(p.offsets)
    ensures var q := LeaveOffset(l.psbt, offset);
      && q.outputs == l.psbt.outputs && GoodOffsets(q.offsets)
      && (Balanced(q, accounted + input) <==> offset !in p.offsets)
  {
    if offset !in p.offsets {
      SumInsert(p.offsets, offset);
      InsertGood(p.offsets, offset);
    }
    LeaveChain(Sum(p.offsets), OutSum(p.outputs), OutSum(l.psbt.outputs), l.scalar, inputScalar, offset, input,
        accounted);
  }

  lemma LeaveChain(sum: int, before: int, after: int, scalar: int, inputScalar: int, offset: nat, input: int,
      accounted: int)
    requires Cong(sum, before - accounted) && Cong(inputScalar, input) && Cong(scalar, after - before)
    requires Cong(offset, scalar - inputScalar) && ValidKey(offset)
    ensures Cong(sum + offset, after - (accounted + input))
    ensures !Cong(sum, after - (accounted + input))
  {
  }

  lemma IdleBalance(sum: int, before: int, after: int, accounted: int, input: int)
    requires Cong(sum, before - accounted) && Cong(0, after - before)
    ensures Cong(sum, after - (accounted + input)) <==> Cong(input, 0)
  {
  }

  // ----- A session -----

  datatype Turn = Turn(ours: map<nat, Input>, draws: seq<Secrets>)

  /** Each participant in turn; None when a call does not return Ok. */
  function Session(p: Psbt, inputs: nat, turns: seq<Turn>): Option<Psbt>
    requires forall t | 0 <= t < |turns| :: |turns[t].draws| == |p.outputs|
    decreases |turns|
  {
    if turns == [] then Some(p) else
    var turn := turns[0];
    match Blind(p, turn.ours, inputs, turn.draws)
    case Stop(_) => None
    case Go(q) => if |q.outputs| != |p.outputs| then None else Session(q, inputs, turns[1..])
  }

  /** Every turn before completion accounts for its inputs, and all scalars are canonical. */
  ghost predicate Disciplined(p: Psbt, inputs: nat, turns: seq<Turn>)
    requires forall t | 0 <= t < |turns| :: |turns[t].draws| == |p.outputs|
    decreases |turns|
  {
    turns != [] && !Complete(p) ==>
      var turn := turns[0];
      && GoodInputs(turn.ours) && GoodDraws(turn.draws)
      && (Gathered(p, turn.ours, inputs, turn.draws).Some? ==> Accounts(p, turn.ours, inputs, turn.draws))
      && match Blind(p, turn.ours, inputs, turn.draws)
         case Stop(_) => true
         case Go(q) => |q.outputs| == |p.outputs| ==> Disciplined(q, inputs, turns[1..])
  }

  /** The inputs of the participants that took part before completion. */
  ghost function Brought(p: Psbt, inputs: nat, turns: seq<Turn>): int
    requires forall t | 0 <= t < |turns| :: |turns[t].draws| == |p.outputs|
    decreases |turns|
  {
    if turns == [] || Complete(p) then 0 else
    InSum(turns[0].ours, inputs) +
    match Blind(p, turns[0].ours, inputs, turns[0].draws)
    case Stop(_) => 0
    case Go(q) => if |q.outputs| == |p.outputs| then Brought(q, inputs, turns[1..]) else 0
  }

  /**
    Main theorem. However many participants take their turns, the offsets left behind balance
    the blinded outputs against the inputs brought; and once every output is blinded, the
    outputs and the inputs cancel.
  */
  lemma {:induction false} SessionBalances(p: Psbt, inputs: nat, turns: seq<Turn>, accounted: int)
    requires forall t | 0 <= t < |turns| :: |turns[t].draws| == |p.outputs|
    requires Good(p) && Balanced(p, accounted) && Disciplined(p, inputs, turns) && Session(p, inputs, turns).Some?
    requires Complete(p) ==> p.offsets == []
    ensures var q := Session(p, inputs, turns).value;
      && Balanced(q, accounted + Brought(p, inputs, turns))
      && (Complete(q) ==> Cong(OutSum(q.outputs) - (accounted + Brought(p, inputs, turns)), 0))
    decreases |turns|
  {
    hide Balanced, Blind, Complete, Good, Cong, OutSum, InSum, GoodInputs, GoodDraws, Accounts, Gathered;
    if Complete(p) { CompleteBalance(p, accounted); }
    if turns == [] {
    } else if Complete(p) {
      CompleteStays(p, inputs, turns);
    } else {
      var turn := turns[0];
      BlindBalances(p, turn.ours, inputs, turn.draws, accounted);
      var q := Blind(p, turn.ours, inputs, turn.draws).value;
      SessionBalances(q, inputs, turns[1..], accounted + InSum(turn.ours, inputs));
    }
  }

  lemma CompleteBalance(p: Psbt, accounted: int)
    requires Balanced(p, accounted) && p.offsets == []
    ensures Cong(OutSum(p.outputs) - accounted, 0)
  {
    assert Sum(p.offsets) == 0;
  }

  /** A complete transaction is left alone. */
  lemma {:induction false} CompleteStays(p: Psbt, inputs: nat, turns: seq<Turn>)
    requires forall t | 0 <= t < |turns| :: |turns[t].draws| == |p.outputs|
    requires Complete(p)
    ensures Session(p, inputs, turns) == Some(p)
    decreases |turns|
  {
    if turns != [] { CompleteStays(p, inputs, turns[1..]); }
  }

  // ----- Two participants that leave the same offset -----

  /** The first of three outputs is blinded, and its participant left the offset x. */
  ghost function Half(x: nat): Psbt {
    Psbt([Output(true, Some(0), 0, Some(Secrets(1, x))), Output(true, Some(1), 0, None),
          Output(true, Some(2), 0, None)], [x])
  }

  ghost function SecondInputs(): map<nat, Input> {
    map[1 := Input(0, 0, 0)]
  }

  ghost function SecondDraws(x: nat): seq<Secrets> {
    [Secrets(0, 0), Secrets(1, x), Secrets(0, 0)]
  }

  lemma HalfCounts(x: nat)
    requires ValidKey(x)
    ensures CountBlinded(Half(x).outputs) == 1 && CountToBlind(Half(x).outputs) == 3
    ensures Balanced(Half(x), 0)
  {
    var p := Half(x);
    assert p.outputs[1..] == [p.outputs[1], p.outputs[2]];
    assert p.outputs[1..][1..] == [p.outputs[2]] && p.offsets[1..] == [];
    assert OutSum([p.outputs[2]]) == 0 && CountBlinded([p.outputs[2]]) == 0 && CountToBlind([p.outputs[2]]) == 1;
    assert OutSum(p.outputs[1..]) == 0 && Sum(p.offsets) == x;
  }

  lemma {:induction false} SecondInputsCancel(k: nat)
    ensures InputScalar(SecondInputs(), k) == Some(0) && InSum(SecondInputs(), k) == 0
  {
    if k > 0 { SecondInputsCancel(k - 1); }
  }

  lemma SecondLoop(x: nat)
    requires ValidKey(x)
    ensures BlindOutputs(Loop(Half(x), 0, 1, false, 0), 0, SecondInputs(), 0, 3, SecondDraws(x)) ==
            Go(Loop(WithSecrets(Half(x), 1, Secrets(1, x)), x, 2, false, 2))
  {
    var p, ours, draws := Half(x), SecondInputs(), SecondDraws(x);
    var l0, l1 := Loop(p, 0, 1, false, 0), Loop(p, 0, 1, false, 1);
    var l2 := Loop(WithSecrets(p, 1, Secrets(1, x)), x, 2, false, 2);
    assert BlindOutput(l0, 0, ours, 0, 3, draws[0]) == Go(l1);
    assert BlindOutput(l1, 1, ours, 0, 3, draws[1]) == Go(l2);
    assert BlindOutput(l2, 2, ours, 0, 3, draws[2]) == Go(l2);
    hide BlindOutput;
    assert BlindOutputs(l2, 2, ours, 0, 3, draws) == Go(l2);
    assert BlindOutputs(l1, 1, ours, 0, 3, draws) == Go(l2);
  }

  /** Two participants with the same offset: the second one is swallowed and the balance is off. */
  lemma SameOffsetSwallowed(x: nat)
    requires ValidKey(x)
    ensures Balanced(Half(x), 0)
    ensures Blind(Half(x), SecondInputs(), 3, SecondDraws(x)).Go?
    ensures !Balanced(Blind(Half(x), SecondInputs(), 3, SecondDraws(x)).value, InSum(SecondInputs(), 3))
  {
    HalfCounts(x);
    SecondInputsCancel(3);
    SecondLoop(x);
    assert 1 in SecondInputs();
    hide BlindOutputs, InputScalar, InSum, CountBlinded, CountToBlind;
    BlindBalances(Half(x), SecondInputs(), 3, SecondDraws(x), 0);
  }

  // ----- The order of the offsets -----

  /** The loop over the outputs keeps the offsets or takes them all away. */
  lemma {:induction false} LoopKeepsOffsets(l: Loop, k: nat, ours: map<nat, Input>, inputScalar: nat, total: nat,
      draws: seq<Secrets>)
    requires k <= |l.psbt.outputs| == |draws|
    ensures var r := BlindOutputs(l, k, ours, inputScalar, total, draws);
      r.Go? ==> r.value.psbt.offsets == l.psbt.offsets || r.value.psbt.offsets == []
    decreases |l.psbt.outputs| - k
  {
    hide LastBlinder, ComputeAndAddToScalarOffset;
    if k < |l.psbt.outputs| {
      var next := BlindOutput(l, k, ours, inputScalar, total, draws[k]);
      if next.Go? { LoopKeepsOffsets(next.value, k + 1, ours, inputScalar, total, draws); }
    }
  }

  lemma LeaveAscending(p: Psbt, q: Psbt, offset: nat)
    requires Ascending(p.offsets) && (q.offsets == p.offsets || q.offsets == [])
    ensures Ascending(q.offsets) && Ascending(LeaveOffset(q, offset).offsets)
  {
    if offset !in q.offsets { InsertAscending(q.offsets, offset); }
  }

  lemma BlindKeepsOrder(p: Psbt, ours: map<nat, Input>, inputs: nat, draws: seq<Secrets>)
    requires |draws| == |p.outputs|
    ensures Ascending(p.offsets) && Blind(p, ours, inputs, draws).Go? ==>
      Ascending(Blind(p, ours, inputs, draws).value.offsets)
  {
    hide BlindOutputs, CountBlinded, CountToBlind, InputScalar, SubtractScalars, Ascending;
    var start := Loop(p, 0, CountBlinded(p.outputs), false, 0);
    if Ascending(p.offsets) && InputScalar(ours, inputs).Some? {
      var inputScalar, total := InputScalar(ours, inputs).value, CountToBlind(p.outputs);
      LoopKeepsOffsets(start, 0, ours, inputScalar, total, draws);
      var r := BlindOutputs(start, 0, ours, inputScalar, total, draws);
      if r.Go? {
        var offset := SubtractScalars(r.value.scalar, inputScalar);
        LeaveAscending(p, r.value.psbt, if offset.Some? then offset.value else 0);
      }
    }
  }

  // ----- Which outputs are blinded, and which status is returned -----

  /** An output that is still to be blinded, by a participant with these inputs. */
  ghost predicate Ours(o: Output, ours: map<nat, Input>) {
    o.toBlind && o.secrets.None? && o.owner.Some? && o.owner.value in ours
  }

  /** What the participant looks for: an output already blinded or to be blinded by it. */
  ghost predicate Counts(o: Output, ours: map<nat, Input>) {
    (o.toBlind && o.secrets.Some?) || Ours(o, ours)
  }

  ghost predicate AnyCounts(outputs: seq<Output>, k: nat, ours: map<nat, Input>) {
    exists i | k <= i < |outputs| :: Counts(outputs[i], ours)
  }

  /** The output afterwards: the drawn secrets, with another value blinder if it was the very last one. */
  ghost predicate Gained(before: Output, after: Output, ours: map<nat, Input>, draw: Secrets, last: bool) {
    if !Ours(before, ours) then after == before else
    && after.secrets.Some?
    && after == before.(secrets := after.secrets)
    && after.secrets.value.asset == draw.asset
    && (after.secrets.value.value == draw.value || last)
  }

  lemma TurnBlinds(l: Loop, k: nat, ours: map<nat, Input>, inputScalar: nat, total: nat, draw: Secrets)
    requires k < |l.psbt.outputs|
    ensures var r := BlindOutput(l, k, ours, inputScalar, total, draw);
      if r.Go? then
        && |r.value.psbt.outputs| == |l.psbt.outputs| && (l.last ==> r.value.last)
        && (forall i | 0 <= i < |l.psbt.outputs| && i != k :: r.value.psbt.outputs[i] == l.psbt.outputs[i])
        && Gained(l.psbt.outputs[k], r.value.psbt.outputs[k], ours, draw, r.value.last)
        && (r.value.ours > 0 <==> l.ours > 0 || Counts(l.psbt.outputs[k], ours))
      else r.status != NoBlindOutputs && Counts(l.psbt.outputs[k], ours)
    ensures !Counts(l.psbt.outputs[k], ours) ==> BlindOutput(l, k, ours, inputScalar, total, draw) == Go(l)
  {
  }

  /** The loop blinds the participant's outputs and no others. */
  lemma {:induction false} LoopBlinds(l: Loop, k: nat, ours: map<nat, Input>, inputScalar: nat, total: nat,
      draws: seq<Secrets>)
    requires k <= |l.psbt.outputs| == |draws|
    ensures var r := BlindOutputs(l, k, ours, inputScalar, total, draws);
      if r.Go? then
        && |r.value.psbt.outputs| == |draws| && (l.last ==> r.value.last)
        && (forall i | 0 <= i < k :: r.value.psbt.outputs[i] == l.psbt.outputs[i])
        && (forall i | k <= i < |draws| ::
            Gained(l.psbt.outputs[i], r.value.psbt.outputs[i], ours, draws[i], r.value.last))
        && (r.value.ours > 0 <==> l.ours > 0 || AnyCounts(l.psbt.outputs, k, ours))
      else r.status != NoBlindOutputs
    ensures !AnyCounts(l.psbt.outputs, k, ours) ==> BlindOutputs(l, k, ours, inputScalar, total, draws) == Go(l)
    decreases |l.psbt.outputs| - k
  {
    hide BlindOutput, Counts;
    if k < |draws| {
      TurnBlinds(l, k, ours, inputScalar, total, draws[k]);
      var next := BlindOutput(l, k, ours, inputScalar, total, draws[k]);
      CountsFrom(l.psbt.outputs, k, ours);
      if next.Go? {
        LoopBlinds(next.value, k + 1, ours, inputScalar, total, draws);
        SameCounts(l.psbt.outputs, next.value.psbt.outputs, k + 1, ours);
      }
    }
  }

  lemma CountsFrom(outputs: seq<Output>, k: nat, ours: map<nat, Input>)
    requires k < |outputs|
    ensures AnyCounts(outputs, k, ours) <==> Counts(outputs[k], ours) || AnyCounts(outputs, k + 1, ours)
  {
    hide Counts;
  }

  lemma SameCounts(a: seq<Output>, b: seq<Output>, k: nat, ours: map<nat, Input>)
    requires |a| == |b| && forall i | k <= i < |a| :: a[i] == b[i]
    ensures AnyCounts(a, k, ours) <==> AnyCounts(b, k, ours)
  {
    hide Counts;
  }

  /** The last output is blinded by whoever completes the transaction, and then no offset is left. */
  ghost predicate LastIff(l: Loop, offsets: seq<nat>, total: nat) {
    && l.blinded == CountBlinded(l.psbt.outputs) && total == CountToBlind(l.psbt.outputs)
    && (l.last <==> l.blinded == total)
    && l.psbt.offsets == if l.last then [] else offsets
  }

  lemma TurnLast(l: Loop, k: nat, ours: map<nat, Input>, inputScalar: nat, offsets: seq<nat>, total: nat, draw: Secrets)
    requires k < |l.psbt.outputs| && LastIff(l, offsets, total)
    ensures var r := BlindOutput(l, k, ours, inputScalar, total, draw); r.Go? ==> LastIff(r.value, offsets, total)
  {
    AllBlinded(l.psbt.outputs);
    hide CountBlinded, CountToBlind, LastBlinder, ComputeAndAddToScalarOffset;
    if Ours(l.psbt.outputs[k], ours) {
      var r := BlindOutput(l, k, ours, inputScalar, total, draw);
      if r.Go? { SecretsSet(l.psbt.outputs, k, r.value.psbt.outputs[k].secrets.value); }
    }
  }

  lemma {:induction false} LoopLast(l: Loop, k: nat, ours: map<nat, Input>, inputScalar: nat, offsets: seq<nat>,
      total: nat, draws: seq<Secrets>)
    requires k <= |l.psbt.outputs| == |draws| && LastIff(l, offsets, total)
    ensures var r := BlindOutputs(l, k, ours, inputScalar, total, draws);
      r.Go? ==> LastIff(r.value, offsets, total)
    decreases |l.psbt.outputs| - k
  {
    hide BlindOutput, LastIff;
    if k < |draws| {
      TurnLast(l, k, ours, inputScalar, offsets, total, draws[k]);
      TurnBlinds(l, k, ours, inputScalar, total, draws[k]);
      var next := BlindOutput(l, k, ours, inputScalar, total, draws[k]);
      if next.Go? { LoopLast(next.value, k + 1, ours, inputScalar, offsets, total, draws); }
    }
  }

  /**
    What a participant does to an incomplete transaction. It is told that it has no output to
    blind exactly when no output is blinded already or its own. After Ok exactly its own
    outputs have gained secrets, and either the transaction is complete and no offset is left,
    or at most one offset was added.
  */
  lemma BlindOutcome(p: Psbt, ours: map<nat, Input>, inputs: nat, draws: seq<Secrets>)
    requires |draws| == |p.outputs| && !Complete(p)
    ensures var r := Blind(p, ours, inputs, draws);
      && (r == Stop(NoBlindOutputs) <==>
          |ours| > 0 && InputScalar(ours, inputs).Some? && !AnyCounts(p.outputs, 0, ours))
      && (InputScalar(ours, inputs).None? ==> r == Stop(ScalarUnable))
      && (r.Go? ==>
          && (|ours| > 0 ==> AnyCounts(p.outputs, 0, ours))
          && |r.value.outputs| == |p.outputs|
          && (forall i | 0 <= i < |p.outputs| ::
              Gained(p.outputs[i], r.value.outputs[i], ours, draws[i], Complete(r.value)))
          && if Complete(r.value) then r.value.offsets == []
             else r.value.offsets == p.offsets || exists x :: r.value.offsets == Insert(p.offsets, x))
  {
    hide BlindOutputs, InputScalar, CountBlinded, CountToBlind, SubtractScalars, AnyCounts, Gained;
    match InputScalar(ours, inputs)
    case None =>
    case Some(inputScalar) =>
      var start, total := Loop(p, 0, CountBlinded(p.outputs), false, 0), CountToBlind(p.outputs);
      LoopBlinds(start, 0, ours, inputScalar, total, draws);
      LoopLast(start, 0, ours, inputScalar, p.offsets, total, draws);
      var l := BlindOutputs(start, 0, ours, inputScalar, total, draws);
      if l.Go? && !l.value.last && SubtractScalars(l.value.scalar, inputScalar).Some? {
        var x := SubtractScalars(l.value.scalar, inputScalar).value;
        assert LeaveOffset(l.value.psbt, x).offsets in [p.offsets, Insert(p.offsets, x)];
      }
  }

  lemma TurnInvalid(p: Psbt, l: Loop, k: nat, ours: map<nat, Input>, inputScalar: nat, total: nat, draw: Secrets)
    requires LoopInv(p, l, inputScalar, total) && k < |l.psbt.outputs| && GoodOffsets(p.offsets)
    requires Canonical(inputScalar) && Canonical(draw.asset) && Canonical(draw.value)
    requires BlindOutput(l, k, ours, inputScalar, total, draw) == Stop(InvalidBlinder)
    ensures inputScalar == 0 && forall i | 0 <= i < |p.offsets| :: p.offsets[i] == 0
  {
    hide ComputeAndAddToScalarOffset, LastBlinder, CountBlinded, CountToBlind, OutSum, Sum, Cong;
    var output := l.psbt.outputs[k];
    ComputeAndAddExact(l.scalar, output.amount, draw.asset, draw.value);
    var scalar := ComputeAndAddToScalarOffset(l.scalar, output.amount, draw.asset, draw.value).value;
    ZeroBlinderNeedsZeros(scalar, inputScalar, draw.value, l.psbt.offsets);
  }

  lemma {:induction false} LoopInvalid(p: Psbt, l: Loop, k: nat, ours: map<nat, Input>, inputScalar: nat, total: nat,
      draws: seq<Secrets>)
    requires LoopInv(p, l, inputScalar, total) && k <= |p.outputs| == |draws| == |l.psbt.outputs|
    requires GoodOffsets(p.offsets) && Canonical(inputScalar) && GoodDraws(draws)
    requires BlindOutputs(l, k, ours, inputScalar, total, draws) == Stop(InvalidBlinder)
    ensures inputScalar == 0 && forall i | 0 <= i < |p.offsets| :: p.offsets[i] == 0
    decreases |p.outputs| - k
  {
    hide LoopInv, BlindOutput;
    if k < |p.outputs| {
      var r := BlindOutput(l, k, ours, inputScalar, total, draws[k]);
      if r.Go? {
        BlindOutputKeeps(p, l, k, ours, inputScalar, total, draws[k]);
        SameLength(p, r.value, inputScalar, total);
        LoopInvalid(p, r.value, k + 1, ours, inputScalar, total, draws);
      } else {
        TurnInvalid(p, l, k, ours, inputScalar, total, draws[k]);
      }
    }
  }

  /** The status for an invalid blinder is only returned when the inputs and all offsets weigh nothing. */
  lemma InvalidNeedsZeros(p: Psbt, ours: map<nat, Input>, inputs: nat, draws: seq<Secrets>)
    requires |draws| == |p.outputs| && Good(p) && GoodInputs(ours) && GoodDraws(draws)
    requires Blind(p, ours, inputs, draws) == Stop(InvalidBlinder)
    ensures Cong(InSum(ours, inputs), 0) && forall i | 0 <= i < |p.offsets| :: p.offsets[i] == 0
  {
    hide LoopInv, BlindOutputs, InputScalar, CountBlinded, CountToBlind, SubtractScalars;
    InputScalarCorrect(ours, inputs);
    AllBlinded(p.outputs);
    StartInv(p, InputScalar(ours, inputs).value);
    LoopInvalid(p, Loop(p, 0, CountBlinded(p.outputs), false, 0), 0, ours, InputScalar(ours, inputs).value,
                CountToBlind(p.outputs), draws);
  }

  lemma StartInv(p: Psbt, inputScalar: nat)
    requires Good(p) && CountBlinded(p.outputs) < CountToBlind(p.outputs)
    ensures LoopInv(p, Loop(p, 0, CountBlinded(p.outputs), false, 0), inputScalar, CountToBlind(p.outputs))
  {
  }

  // ----- The object -----

  class PartiallySignedTransaction {
    var outputs: seq<Output>
    var offsets: seq<nat>

    ghost function V(): Psbt
      reads this
    {
      Psbt(outputs, offsets)
    }

    /** The counts at the start of BlindPSBT. */
    method Count() returns (blinded: nat, total: nat)
      ensures blinded == CountBlinded(outputs) && total == CountToBlind(outputs)
    {
      blinded, total := 0, 0;
      var i := |outputs|;
      while i > 0
        invariant 0 <= i <= |outputs|
        invariant blinded == CountBlinded(outputs[i..]) && total == CountToBlind(outputs[i..])
      {
        i := i - 1;
        assert outputs[i..][1..] == outputs[i + 1..];
        if outputs[i].FullyBlinded() { blinded := blinded + 1; }
        if outputs[i].toBlind { total := total + 1; }
      }
    }

    method SumInputs(ours: map<nat, Input>, inputs: nat) returns (sum: Option<nat>)
      ensures sum == InputScalar(ours, inputs)
    {
      sum := Some(0);
      var i := 0;
      while i < inputs
        invariant i <= inputs && sum.Some? && sum == InputScalar(ours, i)
      {
        if i in ours {
          sum := ComputeAndAddToScalarOffset(sum.value, ours[i].value, ours[i].assetBlinder, ours[i].valueBlinder);
          if sum.None? {
            FailedInputs(ours, i + 1, inputs);
            return;
          }
        }
        i := i + 1;
      }
    }

    method SubtractOffsets(a: nat) returns (r: Option<nat>)
      ensures r == SubtractAll(a, offsets)
    {
      r := Some(a);
      var i := 0;
      while i < |offsets|
        invariant i <= |offsets| && r.Some? && SubtractAll(r.value, offsets[i..]) == SubtractAll(a, offsets)
      {
        assert offsets[i..][1..] == offsets[i + 1..];
        r := SubtractScalars(r.value, offsets[i]);
        if r.None? { return; }
        i := i + 1;
      }
    }

    /** The value blinder of the very last output, from the blinder drawn for it. */
    method ChooseLast(scalar: nat, inputScalar: nat, valueBlinder: nat) returns (r: Result<(nat, nat)>)
      ensures r == LastBlinder(scalar, inputScalar, valueBlinder, offsets)
    {
      var difference := SubtractScalars(scalar, inputScalar);
      if difference.None? { return Stop(ScalarUnable); }
      var rest := SubtractScalars(valueBlinder, difference.value);
      if rest.None? { return Stop(ScalarUnable); }
      var blinder := SubtractOffsets(rest.value);
      if blinder.None? { return Stop(ScalarUnable); }
      if blinder.value == 0 { return Stop(InvalidBlinder); }
      return Go((difference.value, blinder.value));
    }

    /** One turn of the loop over the outputs. */
    method BlindOne(i: nat, ours: map<nat, Input>, input: nat, total: nat, draw: Secrets, scalar: nat, blinded: nat,
        last: bool, done: nat) returns (status: Status, scalar': nat, blinded': nat, last': bool, done': nat)
      requires i < |outputs|
      modifies this
      ensures var r := BlindOutput(old(Loop(V(), scalar, blinded, last, done)), i, ours, input, total, draw);
        if status.Ok? then r == Go(Loop(V(), scalar', blinded', last', done')) else r == Stop(status)
      ensures |outputs| == old(|outputs|)
    {
      status, scalar', blinded', last', done' := Ok, scalar, blinded, last, done;
      if outputs[i].FullyBlinded() {
        done' := done + 1;
      } else if outputs[i].toBlind && outputs[i].owner.Some? && outputs[i].owner.value in ours {
        var secrets := draw;
        var sum := ComputeAndAddToScalarOffset(scalar, outputs[i].amount, secrets.asset, secrets.value);
        if sum.None? { status := ScalarUnable; return; }
        scalar' := sum.value;
        blinded' := blinded + 1;
        if blinded' == total {
          last' := true;
          var chosen := ChooseLast(scalar', input, secrets.value);
          if chosen.Stop? { status := chosen.status; LastStops(sum.value, input, draw.value, offsets); return; }
          scalar', offsets := chosen.value.0, [];
          secrets := Secrets(secrets.asset, chosen.value.1);
        }
        outputs := outputs[i := outputs[i].(secrets := Some(secrets))];
        done' := done + 1;
      }
    }

    /** The state after Ok is what Blind says; any other status is the one Blind stops with. */
    method BlindPSBT(ours: map<nat, Input>, inputs: nat, draws: seq<Secrets>) returns (status: Status)
      requires |draws| == |outputs|
      modifies this
      ensures var r := Blind(old(V()), ours, inputs, draws);
        if status.Ok? then r == Go(V()) else r == Stop(status)
      ensures status.Ok? && old(Ascending(offsets)) ==> Ascending(offsets)
      ensures old(!Complete(V())) ==>
        (status == NoBlindOutputs <==>
         |ours| > 0 && InputScalar(ours, inputs).Some? && !AnyCounts(old(outputs), 0, ours))
    {
      hide SubtractScalars, BlindOutput, InputScalar, CountBlinded, CountToBlind, Insert, Ascending, AnyCounts, Gained;
      BlindKeepsOrder(V(), ours, inputs, draws);
      if !Complete(V()) { BlindOutcome(V(), ours, inputs, draws); }
      var blinded, total := Count();
      if blinded == total { return Ok; }
      var input := SumInputs(ours, inputs);
      if input.None? { return ScalarUnable; }
      var scalar, last, done := 0, false, 0;
      ghost var goal := BlindOutputs(Loop(V(), 0, blinded, false, 0), 0, ours, input.value, total, draws);
      var i := 0;
      while i < |outputs|
        invariant 0 <= i <= |outputs| == |draws|
        invariant BlindOutputs(Loop(V(), scalar, blinded, last, done), i, ours, input.value, total, draws) == goal
      {
        status, scalar, blinded, last, done :=
          BlindOne(i, ours, input.value, total, draws[i], scalar, blinded, last, done);
        if !status.Ok? { return; }
        i := i + 1;
      }
      if !last && scalar != 0 {
        var offset := SubtractScalars(scalar, input.value);
        if offset.None? { return ScalarUnable; }
        if offset.value !in offsets { offsets := Insert(offsets, offset.value); }
      }
      if |ours| > 0 && done == 0 { return NoBlindOutputs; }
      return Ok;
    }
  }

  lemma LastStops(scalar: nat, inputScalar: nat, valueBlinder: nat, offsets: seq<nat>)
    ensures LastBlinder(scalar, inputScalar, valueBlinder, offsets).Stop? ==>
      !LastBlinder(scalar, inputScalar, valueBlinder, offsets).status.Ok?
  {
  }

  lemma {:induction false} FailedInputs(ours: map<nat, Input>, k: nat, inputs: nat)
    requires k <= inputs && InputScalar(ours, k).None?
    ensures InputScalar(ours, inputs).None?
    decreases inputs
  {
    if k < inputs { FailedInputs(ours, k, inputs - 1); }
  }
}
