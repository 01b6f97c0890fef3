// The GPipe (fill-drain) schedule on one stage: every forward in order, then,
// when there is a loss function, every backward in order.

module GPipe {
  import opened Wrappers
  import opened PipelineTrace

  /** Forward of microbatch `i`: receive, run the chunk, send. */
  function FwdStep(i: nat): seq<Event>
  {
    [Comm([FwdRecv]), Forward(i), Comm([FwdSend])]
  }

  /** Backward of microbatch `i` of `n`, flagged as the last backward for
      `i == n - 1`, with the loss stored for `i` on the last stage. */
  function BwdStep(i: nat, n: nat, isLast: bool): seq<Event>
  {
    [Comm([BwdRecv]), Backward(i, i == n - 1, StoredLoss(isLast, i)), Comm([BwdSend])]
  }

  /** The forward loop after `k` iterations. */
  function ForwardPhase(k: nat): seq<Event>
  {
    if k == 0 then [] else ForwardPhase(k - 1) + FwdStep(k - 1)
  }

  /** The backward loop after `k` iterations. */
  function BackwardPhase(k: nat, n: nat, isLast: bool): seq<Event>
  {
    if k == 0 then [] else BackwardPhase(k - 1, n, isLast) + BwdStep(k - 1, n, isLast)
  }

  /** A whole run of `n` microbatches; without a loss function it stops after
      the forwards. */
  function Trace(n: nat, hasBackward: bool, isLast: bool): seq<Event>
  {
    ForwardPhase(n) + (if hasBackward then BackwardPhase(n, n, isLast) else [])
  }

  predicate NoForward(t: seq<Event>)
  {
    forall a :: 0 <= a < |t| ==> !t[a].Forward?
  }

  predicate NoBackward(t: seq<Event>)
  {
    forall a :: 0 <= a < |t| ==> !t[a].Backward?
  }

  /** Every backward carries the last-backward flag exactly for the final
      microbatch and the loss stored for its own microbatch. */
  predicate BackwardsFlagged(t: seq<Event>, n: nat, isLast: bool)
  {
    forall a :: 0 <= a < |t| && t[a].Backward? ==>
      (t[a].last <==> t[a].mb == n - 1) && t[a].loss == StoredLoss(isLast, t[a].mb)
  }

  lemma Triple(x: Event, y: Event, z: Event, k: OpKind)
    ensures Forwards([x, y, z]) == Forwards([x]) + Forwards([y]) + Forwards([z])
    ensures Backwards([x, y, z]) == Backwards([x]) + Backwards([y]) + Backwards([z])
    ensures Occurrences([x, y, z], k) == Occurrences([x], k) + Occurrences([y], k) + Occurrences([z], k)
  {
    assert [x, y, z] == [x] + [y] + [z];
    ForwardsAppend([x] + [y], [z]);
    ForwardsAppend([x], [y]);
    BackwardsAppend([x] + [y], [z]);
    BackwardsAppend([x], [y]);
    OccurrencesAppend([x] + [y], [z], k);
    OccurrencesAppend([x], [y], k);
  }

  lemma FwdStepExtraction(i: nat, k: OpKind)
    ensures Forwards(FwdStep(i)) == [i] && Backwards(FwdStep(i)) == []
    ensures Occurrences(FwdStep(i), k) == if k == FwdRecv || k == FwdSend then 1 else 0
  {
    assert FwdStep(i) == [Comm([FwdRecv]), Forward(i), Comm([FwdSend])];
    Triple(Comm([FwdRecv]), Forward(i), Comm([FwdSend]), k);
    Single(Comm([FwdRecv]), k);
    Single(Forward(i), k);
    Single(Comm([FwdSend]), k);
    OneKind(FwdRecv, k);
    OneKind(FwdSend, k);
  }

  lemma BwdStepExtraction(i: nat, n: nat, isLast: bool, k: OpKind)
    ensures Forwards(BwdStep(i, n, isLast)) == [] && Backwards(BwdStep(i, n, isLast)) == [i]
    ensures Occurrences(BwdStep(i, n, isLast), k) == if k == BwdRecv || k == BwdSend then 1 else 0
  {
    var e := Backward(i, i == n - 1, StoredLoss(isLast, i));
    assert BwdStep(i, n, isLast) == [Comm([BwdRecv]), e, Comm([BwdSend])];
    Triple(Comm([BwdRecv]), e, Comm([BwdSend]), k);
    Single(Comm([BwdRecv]), k);
    Single(e, k);
    Single(Comm([BwdSend]), k);
    OneKind(BwdRecv, k);
    OneKind(BwdSend, k);
  }

  lemma StepPredicates(i: nat, n: nat, isLast: bool)
    ensures NoBackward(FwdStep(i))
    ensures NoForward(BwdStep(i, n, isLast)) && BackwardsFlagged(BwdStep(i, n, isLast), n, isLast)
  {
  }

  lemma PredicatesAppend(a: seq<Event>, b: seq<Event>, n: nat, isLast: bool)
    ensures NoForward(a) && NoForward(b) ==> NoForward(a + b)
    ensures NoBackward(a) && NoBackward(b) ==> NoBackward(a + b)
    ensures BackwardsFlagged(a, n, isLast) && BackwardsFlagged(b, n, isLast) ==>
              BackwardsFlagged(a + b, n, isLast)
  {
    var t := a + b;
    assert forall x :: 0 <= x < |a| ==> t[x] == a[x];
    assert forall x :: |a| <= x < |t| ==> t[x] == b[x - |a|];
  }

  /** The forward loop forwards `0 .. k-1` in order and runs no backward. */
  lemma {:induction false} ForwardPhaseOrder(k: nat)
    ensures Forwards(ForwardPhase(k)) == Range(k)
    ensures Backwards(ForwardPhase(k)) == []
    ensures NoBackward(ForwardPhase(k))
  {
    if k == 0 {
      assert Forwards([]) == [] && Backwards([]) == [];
    } else {
      ForwardPhaseOrder(k - 1);
      FwdStepExtraction(k - 1, FwdRecv);
      ForwardsAppend(ForwardPhase(k - 1), FwdStep(k - 1));
      BackwardsAppend(ForwardPhase(k - 1), FwdStep(k - 1));
      StepPredicates(k - 1, 0, false);
      PredicatesAppend(ForwardPhase(k - 1), FwdStep(k - 1), 0, false);
      RangeSnoc(k - 1);
    }
  }

  /** One forward receive and one forward send per iteration. */
  lemma {:induction false} ForwardPhaseCount(k: nat, kind: OpKind)
    ensures Occurrences(ForwardPhase(k), kind) == if kind == FwdRecv || kind == FwdSend then k else 0
  {
    if k > 0 {
      ForwardPhaseCount(k - 1, kind);
      FwdStepExtraction(k - 1, kind);
      OccurrencesAppend(ForwardPhase(k - 1), FwdStep(k - 1), kind);
    }
  }

  /** The backward loop backwards `0 .. k-1` in order. */
  lemma {:induction false} BackwardPhaseOrder(k: nat, n: nat, isLast: bool)
    ensures Forwards(BackwardPhase(k, n, isLast)) == []
    ensures Backwards(BackwardPhase(k, n, isLast)) == Range(k)
  {
    if k == 0 {
      assert Forwards([]) == [] && Backwards([]) == [];
    } else {
      var prev := BackwardPhase(k - 1, n, isLast);
      var step := BwdStep(k - 1, n, isLast);
      assert BackwardPhase(k, n, isLast) == prev + step;
      BackwardPhaseOrder(k - 1, n, isLast);
      BwdStepExtraction(k - 1, n, isLast, BwdRecv);
      ForwardsAppend(prev, step);
      BackwardsAppend(prev, step);
      RangeSnoc(k - 1);
      assert Backwards(prev + step) == Range(k - 1) + [k - 1];
    }
  }

  /** The backward loop runs no forward and flags only microbatch `n - 1` as
      the last backward. */
  lemma {:induction false} BackwardPhaseFlagged(k: nat, n: nat, isLast: bool)
    ensures NoForward(BackwardPhase(k, n, isLast))
    ensures BackwardsFlagged(BackwardPhase(k, n, isLast), n, isLast)
  {
    if k > 0 {
      BackwardPhaseFlagged(k - 1, n, isLast);
      StepPredicates(k - 1, n, isLast);
      PredicatesAppend(BackwardPhase(k - 1, n, isLast), BwdStep(k - 1, n, isLast), n, isLast);
    }
  }

  /** One backward receive and one backward send per iteration. */
  lemma {:induction false} BackwardPhaseCount(k: nat, n: nat, isLast: bool, kind: OpKind)
    ensures Occurrences(BackwardPhase(k, n, isLast), kind) == if kind == BwdRecv || kind == BwdSend then k else 0
  {
    if k > 0 {
      BackwardPhaseCount(k - 1, n, isLast, kind);
      BwdStepExtraction(k - 1, n, isLast, kind);
      OccurrencesAppend(BackwardPhase(k - 1, n, isLast), BwdStep(k - 1, n, isLast), kind);
    }
  }

  /** A whole run forwards every microbatch once and in order, backwards every
      microbatch once and in order exactly when there is a loss function, and
      issues one receive and one send per chunk. */
  lemma RunOnceEach(n: nat, hasBackward: bool, isLast: bool, kind: OpKind)
    ensures Forwards(Trace(n, hasBackward, isLast)) == Range(n)
    ensures Backwards(Trace(n, hasBackward, isLast)) == if hasBackward then Range(n) else []
    ensures Occurrences(Trace(n, hasBackward, isLast), kind) ==
              if kind == FwdRecv || kind == FwdSend then n
              else if hasBackward then n else 0
  {
    var b: seq<Event> := if hasBackward then BackwardPhase(n, n, isLast) else [];
    ForwardPhaseOrder(n);
    ForwardPhaseCount(n, kind);
    BackwardPhaseOrder(n, n, isLast);
    BackwardPhaseCount(n, n, isLast, kind);
    ForwardsAppend(ForwardPhase(n), b);
    BackwardsAppend(ForwardPhase(n), b);
    OccurrencesAppend(ForwardPhase(n), b, kind);
    assert Forwards([]) == [] && Backwards([]) == [] && Occurrences([], kind) == 0;
  }

  /** Fill-drain: every forward comes before every backward, and every
      backward is flagged and fed its loss as its microbatch requires. */
  lemma ForwardsBeforeBackwards(n: nat, hasBackward: bool, isLast: bool)
    ensures forall a, b :: 0 <= a < |Trace(n, hasBackward, isLast)| &&
                           0 <= b < |Trace(n, hasBackward, isLast)| &&
                           Trace(n, hasBackward, isLast)[a].Forward? &&
                           Trace(n, hasBackward, isLast)[b].Backward?
                           ==> a < b
    ensures BackwardsFlagged(Trace(n, hasBackward, isLast), n, isLast)
  {
    var f := ForwardPhase(n);
    var b: seq<Event> := if hasBackward then BackwardPhase(n, n, isLast) else [];
    var t := Trace(n, hasBackward, isLast);
    ForwardPhaseOrder(n);
    BackwardPhaseFlagged(n, n, isLast);
    assert t == f + b;
    assert forall x :: 0 <= x < |f| ==> t[x] == f[x];
    assert forall x :: |f| <= x < |t| ==> t[x] == b[x - |f|];
    assert BackwardsFlagged(f, n, isLast);
    PredicatesAppend(f, b, n, isLast);
  }
}
