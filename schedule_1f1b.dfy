// The 1F1B schedule on one stage: its step counts, its per-step predicates
// (as written, where an `assert` can fail, and corrected), the trace a run
// produces, and what that trace guarantees.

module OneFOneB {
  import opened Wrappers
  import opened PipelineTrace
  import opened Arith

  /** Step counts of one stage, and what the trace builder needs to know. */
  datatype Plan = Plan(n: nat, warmup: nat, main: int, cooldown: int, total: nat,
                       hasBackward: bool, isLast: bool)

  /** Warmup (forward only), main (one forward and one backward per step) and
      cooldown (backward only) step counts for stage `stageIndex` of
      `numStages`. */
  function PlanFor(n: nat, numStages: int, stageIndex: int, hasBackward: bool, isLast: bool): (p: Plan)
    requires 0 <= stageIndex < numStages
    ensures p.n == n && p.hasBackward == hasBackward && p.isLast == isLast
    ensures p.warmup <= n && p.main == n - p.warmup && p.cooldown == p.warmup
    ensures p.total == n + p.warmup
    ensures p.warmup == 0 <==> n == 0 || stageIndex == numStages - 1
    ensures p.warmup == n <==> n <= 2 * (numStages - stageIndex - 1)
  {
    var warmup := Min(n, 2 * (numStages - stageIndex - 1));
    var main := n - warmup;
    var cooldown := 2 * n - (warmup + 2 * main);
    Plan(n, warmup, main, cooldown, warmup + main + cooldown, hasBackward, isLast)
  }

  predicate WellFormed(p: Plan)
  {
    p.warmup <= p.n && p.total == p.n + p.warmup
  }

  lemma PlanForWellFormed(n: nat, numStages: int, stageIndex: int, hasBackward: bool, isLast: bool)
    requires 0 <= stageIndex < numStages
    ensures WellFormed(PlanFor(n, numStages, stageIndex, hasBackward, isLast))
  {
  }

  // ---------------------------------------------------------------------------
  // The step predicates as written: `None` is an AssertionError
  // ---------------------------------------------------------------------------

  /** Python's `and` on possibly-raising operands: the right side is only
      evaluated when the left side is true. */
  function AndAlso(a: Option<bool>, b: Option<bool>): Option<bool>
  {
    match a
    case None => None
    case Some(x) => if x then b else Some(false)
  }

  function OrElse(a: Option<bool>, b: Option<bool>): Option<bool>
  {
    match a
    case None => None
    case Some(x) => if x then Some(true) else b
  }

  function NotO(a: Option<bool>): Option<bool>
  {
    match a
    case None => None
    case Some(x) => Some(!x)
  }

  function StepHasForwardAsWritten(p: Plan, i: int): Option<bool>
  {
    if i >= 0 then Some(i < p.n) else None
  }

  function StepHasBackwardAsWritten(p: Plan, i: int): Option<bool>
  {
    if i < p.total then Some(i >= p.warmup && p.hasBackward) else None
  }

  function Is1F1BAsWritten(p: Plan, i: int): Option<bool>
  {
    AndAlso(StepHasForwardAsWritten(p, i), StepHasBackwardAsWritten(p, i))
  }

  function IsWarmupAsWritten(p: Plan, i: int): Option<bool>
  {
    AndAlso(StepHasForwardAsWritten(p, i), NotO(StepHasBackwardAsWritten(p, i)))
  }

  function IsCooldownAsWritten(p: Plan, i: int): Option<bool>
  {
    AndAlso(NotO(StepHasForwardAsWritten(p, i)), StepHasBackwardAsWritten(p, i))
  }

  function CoalesceFwdSendBwdRecvAsWritten(p: Plan, step: int): Option<bool>
  {
    OrElse(Is1F1BAsWritten(p, step),
      OrElse(AndAlso(IsWarmupAsWritten(p, step), IsCooldownAsWritten(p, step + 1)),
        AndAlso(Some(step >= 1), AndAlso(IsWarmupAsWritten(p, step - 1), IsCooldownAsWritten(p, step)))))
  }

  function CoalesceBwdSendFwdRecvAsWritten(p: Plan, bwdSendStep: int): Option<bool>
  {
    AndAlso(Some(bwdSendStep >= p.warmup), Is1F1BAsWritten(p, bwdSendStep + 1))
  }

  /** The forward-only schedule on the last stage raises: its last forward
      step asks whether the step after it is a cooldown step, and that step
      is past `total_steps`. */
  lemma ForwardOnlyLastStageRaises(n: nat, numStages: int, isLast: bool)
    requires n >= 1 && numStages >= 1
    ensures var p := PlanFor(n, numStages, numStages - 1, false, isLast);
            p.total == n && CoalesceFwdSendBwdRecvAsWritten(p, n - 1) == None
  {
  }

  // ---------------------------------------------------------------------------
  // The corrected predicates: a step past the end has no backward
  // ---------------------------------------------------------------------------

  predicate HasForward(p: Plan, i: int)
  {
    0 <= i < p.n
  }

  predicate HasBackward(p: Plan, i: int)
  {
    i < p.total && i >= p.warmup && p.hasBackward
  }

  predicate Is1F1B(p: Plan, i: int) { HasForward(p, i) && HasBackward(p, i) }

  predicate IsWarmup(p: Plan, i: int) { HasForward(p, i) && !HasBackward(p, i) }

  predicate IsCooldown(p: Plan, i: int) { !HasForward(p, i) && HasBackward(p, i) }

  /** The forward send of this step travels with the backward receive. */
  predicate CoalesceFwdSendBwdRecv(p: Plan, step: int)
  {
    Is1F1B(p, step)
    || (IsWarmup(p, step) && IsCooldown(p, step + 1))
    || (step >= 1 && IsWarmup(p, step - 1) && IsCooldown(p, step))
  }

  /** The backward send of this step travels with the next forward receive. */
  predicate CoalesceBwdSendFwdRecv(p: Plan, bwdSendStep: int)
  {
    bwdSendStep >= p.warmup && Is1F1B(p, bwdSendStep + 1)
  }

  /** The correction changes nothing where the code as written does not raise,
      and the code raises at a point a run evaluates exactly on the
      forward-only last stage, at its last forward step. */
  lemma {:induction false} AsWrittenAgrees(p: Plan, i: int)
    requires WellFormed(p) && 0 <= i < p.total
    ensures HasForward(p, i) ==>
              CoalesceBwdSendFwdRecvAsWritten(p, i - 1) == Some(CoalesceBwdSendFwdRecv(p, i - 1))
    ensures HasForward(p, i) ==>
              (CoalesceFwdSendBwdRecvAsWritten(p, i) == None <==>
               p.warmup == 0 && !p.hasBackward && i == p.n - 1)
    ensures HasForward(p, i) && CoalesceFwdSendBwdRecvAsWritten(p, i).Some? ==>
              CoalesceFwdSendBwdRecvAsWritten(p, i) == Some(CoalesceFwdSendBwdRecv(p, i))
    ensures StepHasBackwardAsWritten(p, i) == Some(HasBackward(p, i))
    ensures HasBackward(p, i) ==>
              CoalesceFwdSendBwdRecvAsWritten(p, i) == Some(CoalesceFwdSendBwdRecv(p, i)) &&
              CoalesceBwdSendFwdRecvAsWritten(p, i) == Some(CoalesceBwdSendFwdRecv(p, i))
  {
  }

  // ---------------------------------------------------------------------------
  // The trace of one run
  // ---------------------------------------------------------------------------

  /** What a step does, as decided by the predicates: whether it runs a
      forward and a backward, which sends travel with which receives, and
      the backward's microbatch, flag and loss. */
  datatype Shape = Shape(fwd: bool, bwd: bool, bwdSendWithFwdRecv: bool, fwdSendWithBwdRecv: bool,
                         bwdSendWithNextFwdRecv: bool, bwdMb: nat, last: bool, loss: Option<Loss>)

  function ShapeOf(p: Plan, i: nat): Shape
  {
    var j := if i >= p.warmup then i - p.warmup else 0;
    Shape(HasForward(p, i), HasBackward(p, i), CoalesceBwdSendFwdRecv(p, i - 1),
          CoalesceFwdSendBwdRecv(p, i), CoalesceBwdSendFwdRecv(p, i),
          j, i == p.total - 1, StoredLoss(p.isLast, j))
  }

  /** What the shape of a step within the run means: forwards run on the
      first `n` steps and backwards after warmup; a backward is of a real
      microbatch and is the last one exactly when it is of microbatch
      `n - 1`; a backward send carried by a forward receive belongs to the
      previous step's backward; and a forward send left out of its step is
      carried by the backward receive of that step or of the next one. */
  lemma ShapeMeaning(p: Plan, i: nat)
    requires WellFormed(p) && i < p.total
    ensures var s := ShapeOf(p, i);
            (s.fwd <==> i < p.n) && (s.bwd <==> p.hasBackward && p.warmup <= i)
    ensures var s := ShapeOf(p, i);
            s.bwd ==> s.bwdMb < p.n && (s.last <==> s.bwdMb == p.n - 1) && s.loss == StoredLoss(p.isLast, s.bwdMb)
    ensures var s := ShapeOf(p, i);
            s.bwdSendWithFwdRecv ==> s.fwd && i >= 1 && ShapeOf(p, i - 1).bwd && ShapeOf(p, i - 1).bwdSendWithNextFwdRecv
    ensures var s := ShapeOf(p, i);
            s.bwdSendWithNextFwdRecv ==> s.bwd && i + 1 < p.total && ShapeOf(p, i + 1).fwd && ShapeOf(p, i + 1).bwdSendWithFwdRecv
    ensures var s := ShapeOf(p, i);
            s.fwd && s.fwdSendWithBwdRecv ==>
              s.bwd || (i + 1 < p.total && ShapeOf(p, i + 1).bwd && ShapeOf(p, i + 1).fwdSendWithBwdRecv)
  {
  }

  /** One half-step: a receive batch, the chunk itself, and the send batch
      unless that send travels with a later receive. */
  function Block(recv: seq<OpKind>, e: Event, send: bool, sendKind: OpKind): seq<Event>
  {
    [Comm(recv), e] + (if send then [Comm([sendKind])] else [])
  }

  function FwdBlock(i: nat, s: Shape): seq<Event>
  {
    if s.fwd then
      Block([FwdRecv] + (if s.bwdSendWithFwdRecv then [BwdSend] else []), Forward(i),
            !s.fwdSendWithBwdRecv, FwdSend)
    else []
  }

  function BwdBlock(s: Shape): seq<Event>
  {
    if s.bwd then
      Block([BwdRecv] + (if s.fwdSendWithBwdRecv then [FwdSend] else []),
            Backward(s.bwdMb, s.last, s.loss), !s.bwdSendWithNextFwdRecv, BwdSend)
    else []
  }

  function StepBlocks(i: nat, s: Shape): seq<Event>
  {
    FwdBlock(i, s) + BwdBlock(s)
  }

  /** The events of step `i`: its forward half, then its backward half. */
  function StepEvents(p: Plan, i: nat): seq<Event>
  {
    StepBlocks(i, ShapeOf(p, i))
  }

  /** The events of the first `k` steps. */
  function Trace(p: Plan, k: nat): seq<Event>
  {
    if k == 0 then [] else Trace(p, k - 1) + StepEvents(p, k - 1)
  }

  /** Backwards run by the end of step `k - 1`. */
  function BackwardsBy(p: Plan, k: nat): nat
  {
    if p.hasBackward && Min(k, p.total) > p.warmup then Min(k, p.total) - p.warmup else 0
  }

  /** What a loop running step `i` after steps `0 .. i-1` has to establish:
      the two halves extend the trace, and the backward counter moves on
      exactly when the step has a backward. */
  lemma StepInvariant(p: Plan, i: nat, t: seq<Event>, fwd: seq<Event>, bwd: seq<Event>)
    requires WellFormed(p) && i < p.total && t == Trace(p, i)
    requires fwd == FwdBlock(i, ShapeOf(p, i)) && bwd == BwdBlock(ShapeOf(p, i))
    ensures t + (fwd + bwd) == Trace(p, i + 1)
    ensures BackwardsBy(p, i + 1) == BackwardsBy(p, i) + (if HasBackward(p, i) then 1 else 0)
    ensures HasBackward(p, i) ==> BackwardsBy(p, i) == i - p.warmup
  {
  }

  // ---------------------------------------------------------------------------
  // Properties of the trace
  // ---------------------------------------------------------------------------

  lemma HeadExtraction(recv: seq<OpKind>, e: Event, k: OpKind)
    requires !e.Comm?
    ensures Forwards([Comm(recv), e]) == if e.Forward? then [e.mb] else []
    ensures Backwards([Comm(recv), e]) == if e.Backward? then [e.mb] else []
    ensures Occurrences([Comm(recv), e], k) == KindCount(recv, k)
  {
    assert [Comm(recv), e] == [Comm(recv)] + [e];
    ForwardsAppend([Comm(recv)], [e]);
    BackwardsAppend([Comm(recv)], [e]);
    OccurrencesAppend([Comm(recv)], [e], k);
    Single(Comm(recv), k);
    Single(e, k);
  }

  lemma BlockExtraction(recv: seq<OpKind>, e: Event, send: bool, sendKind: OpKind, k: OpKind)
    requires !e.Comm?
    ensures Forwards(Block(recv, e, send, sendKind)) == if e.Forward? then [e.mb] else []
    ensures Backwards(Block(recv, e, send, sendKind)) == if e.Backward? then [e.mb] else []
    ensures Occurrences(Block(recv, e, send, sendKind), k) ==
              KindCount(recv, k) + (if send then KindCount([sendKind], k) else 0)
  {
    var head := [Comm(recv), e];
    var tail: seq<Event> := if send then [Comm([sendKind])] else [];
    HeadExtraction(recv, e, k);
    ForwardsAppend(head, tail);
    BackwardsAppend(head, tail);
    OccurrencesAppend(head, tail, k);
    Single(Comm([sendKind]), k);
    assert Forwards([]) == [] && Backwards([]) == [] && Occurrences([], k) == 0;
  }

  /** The count of kind `k` in a receive list with an optional second entry. */
  lemma ListCount(a: OpKind, c: bool, b: OpKind, k: OpKind)
    ensures KindCount([a] + (if c then [b] else []), k) ==
              (if a == k then 1 else 0) + (if c && b == k then 1 else 0)
  {
    if c {
      assert multiset([a] + [b]) == multiset{a} + multiset{b};
    } else {
      assert [a] + [] == [a];
    }
  }

  lemma FwdBlockExtraction(i: nat, s: Shape)
    ensures Forwards(FwdBlock(i, s)) == if s.fwd then [i] else []
    ensures Backwards(FwdBlock(i, s)) == []
    ensures Occurrences(FwdBlock(i, s), FwdRecv) == if s.fwd then 1 else 0
    ensures Occurrences(FwdBlock(i, s), BwdRecv) == 0
    ensures Occurrences(FwdBlock(i, s), FwdSend) == if s.fwd && !s.fwdSendWithBwdRecv then 1 else 0
    ensures Occurrences(FwdBlock(i, s), BwdSend) == if s.fwd && s.bwdSendWithFwdRecv then 1 else 0
  {
    if s.fwd {
      var fr := [FwdRecv] + (if s.bwdSendWithFwdRecv then [BwdSend] else []);
      var send := !s.fwdSendWithBwdRecv;
      BlockExtraction(fr, Forward(i), send, FwdSend, FwdRecv);
      BlockExtraction(fr, Forward(i), send, FwdSend, BwdRecv);
      BlockExtraction(fr, Forward(i), send, FwdSend, FwdSend);
      BlockExtraction(fr, Forward(i), send, FwdSend, BwdSend);
      ListCount(FwdRecv, s.bwdSendWithFwdRecv, BwdSend, FwdRecv);
      ListCount(FwdRecv, s.bwdSendWithFwdRecv, BwdSend, BwdRecv);
      ListCount(FwdRecv, s.bwdSendWithFwdRecv, BwdSend, FwdSend);
      ListCount(FwdRecv, s.bwdSendWithFwdRecv, BwdSend, BwdSend);
    } else {
      assert Forwards([]) == [] && Backwards([]) == [];
      assert forall k :: Occurrences([], k) == 0;
    }
  }

  lemma BwdBlockExtraction(s: Shape)
    ensures Forwards(BwdBlock(s)) == []
    ensures Backwards(BwdBlock(s)) == if s.bwd then [s.bwdMb] else []
    ensures Occurrences(BwdBlock(s), FwdRecv) == 0
    ensures Occurrences(BwdBlock(s), BwdRecv) == if s.bwd then 1 else 0
    ensures Occurrences(BwdBlock(s), FwdSend) == if s.bwd && s.fwdSendWithBwdRecv then 1 else 0
    ensures Occurrences(BwdBlock(s), BwdSend) == if s.bwd && !s.bwdSendWithNextFwdRecv then 1 else 0
  {
    if s.bwd {
      var br := [BwdRecv] + (if s.fwdSendWithBwdRecv then [FwdSend] else []);
      var e := Backward(s.bwdMb, s.last, s.loss);
      var send := !s.bwdSendWithNextFwdRecv;
      BlockExtraction(br, e, send, BwdSend, FwdRecv);
      BlockExtraction(br, e, send, BwdSend, BwdRecv);
      BlockExtraction(br, e, send, BwdSend, FwdSend);
      BlockExtraction(br, e, send, BwdSend, BwdSend);
      ListCount(BwdRecv, s.fwdSendWithBwdRecv, FwdSend, FwdRecv);
      ListCount(BwdRecv, s.fwdSendWithBwdRecv, FwdSend, BwdRecv);
      ListCount(BwdRecv, s.fwdSendWithBwdRecv, FwdSend, FwdSend);
      ListCount(BwdRecv, s.fwdSendWithBwdRecv, FwdSend, BwdSend);
    } else {
      assert Forwards([]) == [] && Backwards([]) == [];
      assert forall k :: Occurrences([], k) == 0;
    }
  }

  lemma ShapeExtraction(i: nat, s: Shape)
    ensures Forwards(StepBlocks(i, s)) == if s.fwd then [i] else []
    ensures Backwards(StepBlocks(i, s)) == if s.bwd then [s.bwdMb] else []
    ensures Occurrences(StepBlocks(i, s), FwdRecv) == if s.fwd then 1 else 0
    ensures Occurrences(StepBlocks(i, s), BwdRecv) == if s.bwd then 1 else 0
    ensures Occurrences(StepBlocks(i, s), FwdSend) ==
              (if s.fwd && !s.fwdSendWithBwdRecv then 1 else 0) +
              (if s.bwd && s.fwdSendWithBwdRecv then 1 else 0)
    ensures Occurrences(StepBlocks(i, s), BwdSend) ==
              (if s.fwd && s.bwdSendWithFwdRecv then 1 else 0) +
              (if s.bwd && !s.bwdSendWithNextFwdRecv then 1 else 0)
  {
    var f, b := FwdBlock(i, s), BwdBlock(s);
    FwdBlockExtraction(i, s);
    BwdBlockExtraction(s);
    ForwardsAppend(f, b);
    BackwardsAppend(f, b);
    OccurrencesAppend(f, b, FwdRecv);
    OccurrencesAppend(f, b, BwdRecv);
    OccurrencesAppend(f, b, FwdSend);
    OccurrencesAppend(f, b, BwdSend);
  }

  /** Microbatch `i` is forwarded at step `i`, backward `j` at step
      `warmup + j`: after `k` steps the forwards and backwards done are
      `0 .. ` in order. */
  lemma {:induction false} TraceExtraction(p: Plan, k: nat)
    requires WellFormed(p) && k <= p.total
    ensures Forwards(Trace(p, k)) == Range(Min(k, p.n))
    ensures Backwards(Trace(p, k)) == Range(BackwardsBy(p, k))
    ensures Occurrences(Trace(p, k), FwdRecv) == Min(k, p.n)
    ensures Occurrences(Trace(p, k), BwdRecv) == BackwardsBy(p, k)
  {
    if k > 0 {
      var i := k - 1;
      TraceExtraction(p, i);
      var t, s := Trace(p, i), ShapeOf(p, i);
      var ev := StepBlocks(i, s);
      StepInvariant(p, i, t, FwdBlock(i, s), BwdBlock(s));
      ShapeExtraction(i, s);
      ForwardsAppend(t, ev);
      BackwardsAppend(t, ev);
      OccurrencesAppend(t, ev, FwdRecv);
      OccurrencesAppend(t, ev, BwdRecv);
      if i < p.n { RangeSnoc(i); }
      if s.bwd { RangeSnoc(BackwardsBy(p, i)); }
    } else {
      assert Forwards([]) == [] && Backwards([]) == [];
    }
  }

  /** Forward sends issued in the first `k` steps: one per forward step, less
      the last one while it waits to travel with the first backward receive. */
  function FwdSendsBy(p: Plan, k: nat): int
  {
    Min(k, p.n) - (if p.hasBackward && p.warmup == p.n && p.n > 0 && k == p.n then 1 else 0)
  }

  /** Backward sends issued in the first `k` steps: the coalesced ones of the
      steady state plus the standalone ones from step `n - 1` on. */
  function BwdSendsBy(p: Plan, k: nat): int
  {
    if !p.hasBackward then 0
    else Max(0, Min(k, p.n) - (p.warmup + 1)) + Max(0, Min(k, p.total) - Max(p.warmup, p.n - 1))
  }

  lemma FwdSendStep(p: Plan, i: nat)
    requires WellFormed(p) && i < p.total
    ensures FwdSendsBy(p, i + 1) == FwdSendsBy(p, i) +
              (if HasForward(p, i) && !CoalesceFwdSendBwdRecv(p, i) then 1 else 0) +
              (if HasBackward(p, i) && CoalesceFwdSendBwdRecv(p, i) then 1 else 0)
  {
  }

  lemma BwdSendStep(p: Plan, i: nat)
    requires WellFormed(p) && i < p.total
    ensures BwdSendsBy(p, i + 1) == BwdSendsBy(p, i) +
              (if HasForward(p, i) && CoalesceBwdSendFwdRecv(p, i - 1) then 1 else 0) +
              (if HasBackward(p, i) && !CoalesceBwdSendFwdRecv(p, i) then 1 else 0)
  {
  }

  lemma {:induction false} SendsBy(p: Plan, k: nat)
    requires WellFormed(p) && k <= p.total
    ensures Occurrences(Trace(p, k), FwdSend) == FwdSendsBy(p, k)
    ensures Occurrences(Trace(p, k), BwdSend) == BwdSendsBy(p, k)
  {
    if k > 0 {
      var i := k - 1;
      SendsBy(p, i);
      var t, s := Trace(p, i), ShapeOf(p, i);
      var ev := StepBlocks(i, s);
      assert Trace(p, k) == t + ev;
      ShapeExtraction(i, s);
      OccurrencesAppend(t, ev, FwdSend);
      OccurrencesAppend(t, ev, BwdSend);
      FwdSendStep(p, i);
      BwdSendStep(p, i);
    } else {
      assert Occurrences([], FwdSend) == 0 && Occurrences([], BwdSend) == 0;
    }
  }

  /** A whole run forwards every microbatch once and in order, backwards
      every microbatch once and in order exactly when there is a loss
      function, and issues every send and receive exactly once per chunk. */
  lemma RunOnceEach(p: Plan)
    requires WellFormed(p)
    ensures Forwards(Trace(p, p.total)) == Range(p.n)
    ensures Backwards(Trace(p, p.total)) == if p.hasBackward then Range(p.n) else []
    ensures Occurrences(Trace(p, p.total), FwdRecv) == p.n
    ensures Occurrences(Trace(p, p.total), FwdSend) == p.n
    ensures Occurrences(Trace(p, p.total), BwdRecv) == if p.hasBackward then p.n else 0
    ensures Occurrences(Trace(p, p.total), BwdSend) == if p.hasBackward then p.n else 0
  {
    TraceExtraction(p, p.total);
    SendsBy(p, p.total);
  }

  /** Within a step the only `Backward` is the backward half's chunk, and
      only the forward half's chunk precedes it. */
  lemma ShapePositions(i: nat, s: Shape, a: nat)
    requires a < |StepBlocks(i, s)| && StepBlocks(i, s)[a].Backward?
    ensures s.bwd && StepBlocks(i, s)[a] == Backward(s.bwdMb, s.last, s.loss)
    ensures Forwards(StepBlocks(i, s)[..a]) == if s.fwd then [i] else []
  {
    var f, b := FwdBlock(i, s), BwdBlock(s);
    var ev := f + b;
    var fr := [FwdRecv] + (if s.bwdSendWithFwdRecv then [BwdSend] else []);
    var br := [BwdRecv] + (if s.fwdSendWithBwdRecv then [FwdSend] else []);
    assert s.bwd && a == |f| + 1 && ev[a] == b[1];
    assert ev[..a] == f + [Comm(br)];
    ForwardsAppend(f, [Comm(br)]);
    Single(Comm(br), FwdRecv);
    FwdBlockExtraction(i, s);
  }

  /** Every backward in `t` comes after the forward of its microbatch, is
      flagged as the last backward exactly for microbatch `n - 1`, and gets
      the loss stored for its own microbatch. */
  predicate BackwardsPlaced(t: seq<Event>, p: Plan)
  {
    forall a :: 0 <= a < |t| && t[a].Backward? ==>
      t[a].mb < |Forwards(t[..a])| &&
      (t[a].last <==> t[a].mb == p.n - 1) &&
      t[a].loss == StoredLoss(p.isLast, t[a].mb)
  }

  /** Appending step `i` keeps the backwards placed, given that the backward
      of that step is of a microbatch forwarded by the end of the step. */
  lemma PlacedStep(prev: seq<Event>, i: nat, s: Shape, p: Plan)
    requires BackwardsPlaced(prev, p) && |Forwards(prev)| == Min(i, p.n)
    requires s.fwd == (i < p.n)
    requires s.bwd ==> s.bwdMb < Min(i + 1, p.n) && (s.last <==> s.bwdMb == p.n - 1) &&
                       s.loss == StoredLoss(p.isLast, s.bwdMb)
    ensures BackwardsPlaced(prev + StepBlocks(i, s), p)
  {
    var ev := StepBlocks(i, s);
    var t := prev + ev;
    forall a | 0 <= a < |t| && t[a].Backward?
      ensures t[a].mb < |Forwards(t[..a])|
      ensures t[a].last <==> t[a].mb == p.n - 1
      ensures t[a].loss == StoredLoss(p.isLast, t[a].mb)
    {
      if a < |prev| {
        assert t[a] == prev[a];
        assert t[..a] == prev[..a];
      } else {
        var a' := a - |prev|;
        assert t[a] == ev[a'];
        assert t[..a] == prev + ev[..a'];
        ShapePositions(i, s, a');
        ForwardsAppend(prev, ev[..a']);
      }
    }
  }

  /** Every backward comes after the forward of its microbatch, is flagged as
      the last backward exactly when it is the last microbatch, and receives
      the loss of its own microbatch on the last stage. */
  lemma {:induction false} BackwardsFollowForwards(p: Plan, k: nat)
    requires WellFormed(p) && k <= p.total
    ensures BackwardsPlaced(Trace(p, k), p)
  {
    if k > 0 {
      var i := k - 1;
      BackwardsFollowForwards(p, i);
      TraceExtraction(p, i);
      var t, s := Trace(p, i), ShapeOf(p, i);
      assert Trace(p, k) == t + StepBlocks(i, s);
      PlacedStep(t, i, s, p);
    }
  }
}
