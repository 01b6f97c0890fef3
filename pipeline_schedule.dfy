// The single-stage pipeline schedules: input checking, per-peer batching of
// point-to-point ops, the loss bookkeeping of the schedule object, and the
// GPipe and 1F1B iterations as loops that build the trace of their stage.

module PipelineSchedule {
  import opened Wrappers
  import opened PipelineTrace
  import OneFOneB
  import GPipe
  import Arith

  /** An optional argument as a Python caller may pass it: `None`, something
      that is not a list, or a list. */
  datatype Given<T> = Absent | NotAList | Items(items: seq<T>)

  datatype ScheduleError =
    | NotAListError(name: string)                        // TypeError: `{name} must be a list`
    | LengthError(name: string, expected: nat, got: nat) // ValueError: `Expecting {n} {name} but got ..`
    | LossUnavailable(mb: int, available: nat)           // RuntimeError in `_maybe_get_loss`
    | LossCountError(expected: nat, got: nat)            // RuntimeError in `_update_losses`
    | TargetsMissing                                     // TypeError: subscripting a `None` target list
    | NoStages                                           // IndexError: `stages[0]` of an empty list
    | ZeroGroupSize                                      // ZeroDivisionError: `n % 0`
    | MicrobatchesNotMultiple(n: nat, groupSize: nat)    // ValueError of the interleaved schedule
    | TooFewStages(got: nat)                             // ValueError of the multi-stage schedule

  // ---------------------------------------------------------------------------
  // `_check_inputs`
  // ---------------------------------------------------------------------------

  /** A supplied microbatch list must be a list of exactly `n` entries. */
  predicate Acceptable<T>(g: Given<T>, n: nat)
  {
    !g.NotAList? && (g.Items? ==> |g.items| == n)
  }

  /** The error `check_type_and_len` raises for a rejected argument. */
  function Rejection<T>(g: Given<T>, name: string, n: nat): ScheduleError
    requires !Acceptable(g, n)
  {
    if g.NotAList? then NotAListError(name) else LengthError(name, n, |g.items|)
  }

  function CheckList<T>(g: Given<T>, name: string, n: nat): (o: Outcome<ScheduleError>)
    ensures o.Pass? <==> Acceptable(g, n)
    ensures o.Fail? ==> o.error == Rejection(g, name, n)
  {
    match g
    case Absent => Pass
    case NotAList => Fail(NotAListError(name))
    case Items(s) => if |s| != n then Fail(LengthError(name, n, |s|)) else Pass
  }

  /** The positional and keyword microbatch lists, missing ones replaced by
      `n` empty tuples / dicts; the arguments are checked in the order
      positional, keyword, targets, losses and the first rejected one is
      reported. */
  function CheckInputs<A, K, T, L>(n: nat, args: Given<A>, kwargs: Given<K>, targets: Given<T>,
                                   losses: Given<L>, noArgs: A, noKwargs: K)
    : (r: Result<(seq<A>, seq<K>), ScheduleError>)
    ensures r.Success? <==>
              Acceptable(args, n) && Acceptable(kwargs, n) && Acceptable(targets, n) && !losses.NotAList?
    ensures r.Success? ==> |r.value.0| == n && |r.value.1| == n
    ensures r.Success? && args.Items? ==> r.value.0 == args.items
    ensures r.Success? && args.Absent? ==> forall i :: 0 <= i < n ==> r.value.0[i] == noArgs
    ensures r.Success? && kwargs.Items? ==> r.value.1 == kwargs.items
    ensures r.Success? && kwargs.Absent? ==> forall i :: 0 <= i < n ==> r.value.1[i] == noKwargs
    ensures !Acceptable(args, n) ==> r == Failure(Rejection(args, "arg_mbs", n))
    ensures Acceptable(args, n) && !Acceptable(kwargs, n) ==>
              r == Failure(Rejection(kwargs, "kwarg_mbs", n))
    ensures Acceptable(args, n) && Acceptable(kwargs, n) && !Acceptable(targets, n) ==>
              r == Failure(Rejection(targets, "target_mbs", n))
    ensures Acceptable(args, n) && Acceptable(kwargs, n) && Acceptable(targets, n) && losses.NotAList? ==>
              r == Failure(NotAListError("losses"))
  {
    var a := CheckList(args, "arg_mbs", n);
    var k := CheckList(kwargs, "kwarg_mbs", n);
    var t := CheckList(targets, "target_mbs", n);
    if a.Fail? then Failure(a.error)
    else if k.Fail? then Failure(k.error)
    else if t.Fail? then Failure(t.error)
    else if losses.NotAList? then Failure(NotAListError("losses"))
    else
      var argMbs := if args.Items? then args.items else seq(n, _ => noArgs);
      var kwargMbs := if kwargs.Items? then kwargs.items else seq(n, _ => noKwargs);
      Success((argMbs, kwargMbs))
  }

  // ---------------------------------------------------------------------------
  // `_sorted_batch_p2p`
  // ---------------------------------------------------------------------------

  /** A point-to-point op: its kind and the rank of its peer. */
  datatype P2POp = P2POp(kind: OpKind, peer: int)

  /** One `batch_isend_irecv` call: the ops towards one peer. */
  datatype Batch = Batch(peer: int, ops: seq<P2POp>)

  /** The ops towards `peer`, in their original order. */
  function OpsTo(ops: seq<P2POp>, peer: int): seq<P2POp>
  {
    if ops == [] then []
    else OpsTo(ops[..|ops| - 1], peer) + (if ops[|ops| - 1].peer == peer then [ops[|ops| - 1]] else [])
  }

  function PeersOf(ops: seq<P2POp>): set<int>
  {
    if ops == [] then {} else PeersOf(ops[..|ops| - 1]) + {ops[|ops| - 1].peer}
  }

  function PeerSet(bs: seq<Batch>): set<int>
  {
    set b | b in bs :: b.peer
  }

  predicate Ascending(bs: seq<Batch>)
  {
    forall i, j :: 0 <= i < j < |bs| ==> bs[i].peer < bs[j].peer
  }

  /** Every op lands exactly in its own peer's batch: the batch towards `peer`
      holds each op towards `peer` as often as the input does, and no other. */
  lemma {:induction false} OpsToCounts(ops: seq<P2POp>, peer: int, op: P2POp)
    ensures multiset(OpsTo(ops, peer))[op] == if op.peer == peer then multiset(ops)[op] else 0
  {
    if ops != [] {
      var k := |ops|;
      OpsToCounts(ops[..k - 1], peer, op);
      assert ops == ops[..k - 1] + [ops[k - 1]];
    }
  }

  /** The batch towards `peer` is non-empty exactly when some op goes there. */
  lemma {:induction false} OpsToNonEmpty(ops: seq<P2POp>, peer: int)
    ensures OpsTo(ops, peer) != [] <==> peer in PeersOf(ops)
  {
    if ops != [] {
      OpsToNonEmpty(ops[..|ops| - 1], peer);
    }
  }

  /** The position of a smallest entry. */
  function MinIndex(s: seq<int>): (j: nat)
    requires |s| > 0
    ensures j < |s| && forall k :: 0 <= k < |s| ==> s[j] <= s[k]
  {
    if |s| == 1 then 0
    else
      var j := MinIndex(s[..|s| - 1]);
      if s[|s| - 1] < s[j] then |s| - 1 else j
  }

  predicate Distinct(s: seq<int>)
  {
    forall a, b :: 0 <= a < b < |s| ==> s[a] != s[b]
  }

  function Elems(s: seq<int>): set<int>
  {
    set x | x in s
  }

  lemma PeerSetSnoc(bs: seq<Batch>, b: Batch)
    ensures PeerSet(bs + [b]) == PeerSet(bs) + {b.peer}
  {
    assert forall c :: c in bs + [b] <==> c in bs || c == b;
  }

  lemma RemoveAt(s: seq<int>, j: nat)
    requires Distinct(s) && j < |s|
    ensures Distinct(s[..j] + s[j + 1..])
    ensures Elems(s) == Elems(s[..j] + s[j + 1..]) + {s[j]}
    ensures s[j] !in Elems(s[..j] + s[j + 1..])
    ensures forall x :: x in s[..j] + s[j + 1..] ==> x in s
  {
    var rest := s[..j] + s[j + 1..];
    assert forall k :: 0 <= k < |rest| ==> rest[k] == if k < j then s[k] else s[k + 1];
    assert forall x :: x in s ==> x == s[j] || x in rest;
  }

  /** The classification loop: the ops towards each peer in their original
      order, and the peers in the order they were first seen. */
  method GroupByPeer(ops: seq<P2POp>) returns (byPeer: map<int, seq<P2POp>>, peers: seq<int>)
    ensures byPeer.Keys == PeersOf(ops) == Elems(peers)
    ensures Distinct(peers)
    ensures forall q :: q in byPeer ==> byPeer[q] == OpsTo(ops, q)
  {
    byPeer, peers := map[], [];
    var i := 0;
    while i < |ops|
      invariant 0 <= i <= |ops|
      invariant byPeer.Keys == PeersOf(ops[..i]) == Elems(peers)
      invariant forall q :: q in byPeer ==> byPeer[q] == OpsTo(ops[..i], q)
      invariant Distinct(peers)
    {
      var op := ops[i];
      assert ops[..i + 1][..i] == ops[..i];
      OpsToNonEmpty(ops[..i], op.peer);
      if op.peer in byPeer {
        byPeer := byPeer[op.peer := byPeer[op.peer] + [op]];
      } else {
        byPeer := byPeer[op.peer := [op]];
        peers := peers + [op.peer];
      }
      i := i + 1;
    }
    assert ops[..|ops|] == ops;
  }

  /** What the issuing loop keeps: the batches issued so far and the peers
      left partition the peers of `byPeer`, and every issued batch precedes,
      in peer order, every peer left. */
  predicate Issuing(byPeer: map<int, seq<P2POp>>, batches: seq<Batch>, left: seq<int>)
  {
    Elems(left) <= byPeer.Keys &&
    PeerSet(batches) + Elems(left) == byPeer.Keys &&
    Distinct(left) &&
    Ascending(batches) &&
    (forall b, q :: b in batches && q in left ==> b.peer < q) &&
    (forall b :: b in batches ==> b.peer in byPeer && b.ops == byPeer[b.peer])
  }

  lemma AscendingSnoc(bs: seq<Batch>, b: Batch)
    requires Ascending(bs) && forall c :: c in bs ==> c.peer < b.peer
    ensures Ascending(bs + [b])
  {
    var t := bs + [b];
    forall i, j | 0 <= i < j < |t| ensures t[i].peer < t[j].peer {
      assert t[i] == bs[i] && t[i] in bs;
    }
  }

  /** Issuing the batch of the smallest peer left keeps the loop's invariant. */
  lemma IssueStep(byPeer: map<int, seq<P2POp>>, batches: seq<Batch>, left: seq<int>, j: nat)
    requires Issuing(byPeer, batches, left)
    requires j < |left| && forall k :: 0 <= k < |left| ==> left[j] <= left[k]
    ensures left[j] in byPeer
    ensures Issuing(byPeer, batches + [Batch(left[j], byPeer[left[j]])], left[..j] + left[j + 1..])
  {
    RemoveAt(left, j);
    IssueStepPeers(byPeer, batches, left, j);
    IssueStepOrder(byPeer, batches, left, j);
    var b := Batch(left[j], byPeer[left[j]]);
    assert forall c :: c in batches + [b] <==> c in batches || c == b;
  }

  lemma IssueStepPeers(byPeer: map<int, seq<P2POp>>, batches: seq<Batch>, left: seq<int>, j: nat)
    requires Elems(left) <= byPeer.Keys && PeerSet(batches) + Elems(left) == byPeer.Keys
    requires Distinct(left) && j < |left|
    ensures left[j] in byPeer
    ensures var rest := left[..j] + left[j + 1..];
      Elems(rest) <= byPeer.Keys && PeerSet(batches + [Batch(left[j], byPeer[left[j]])]) + Elems(rest) == byPeer.Keys
  {
    RemoveAt(left, j);
    PeerSetSnoc(batches, Batch(left[j], byPeer[left[j]]));
  }

  lemma IssueStepOrder(byPeer: map<int, seq<P2POp>>, batches: seq<Batch>, left: seq<int>, j: nat)
    requires Distinct(left) && Ascending(batches)
    requires forall c, x :: c in batches && x in left ==> c.peer < x
    requires j < |left| && forall k :: 0 <= k < |left| ==> left[j] <= left[k]
    requires left[j] in byPeer
    ensures var bs, rest := batches + [Batch(left[j], byPeer[left[j]])], left[..j] + left[j + 1..];
      Ascending(bs) && forall c, x :: c in bs && x in rest ==> c.peer < x
  {
    var q := left[j];
    var b := Batch(q, byPeer[q]);
    var bs := batches + [b];
    var rest := left[..j] + left[j + 1..];
    RemoveAt(left, j);
    AscendingSnoc(batches, b);
    assert forall c :: c in bs <==> c in batches || c == b;
    assert forall x :: x in left ==> q <= x;
    forall c, x | c in bs && x in rest ensures c.peer < x {
      if c == b {
        assert x in left && x != q;
      }
    }
  }

  /** The issuing loop: one batch per peer of `byPeer`, smallest peer first. */
  method IssueInPeerOrder(byPeer: map<int, seq<P2POp>>, peers: seq<int>) returns (batches: seq<Batch>)
    requires byPeer.Keys == Elems(peers)
    requires Distinct(peers)
    ensures Ascending(batches)
    ensures PeerSet(batches) == byPeer.Keys
    ensures forall b :: b in batches ==> b.peer in byPeer && b.ops == byPeer[b.peer]
  {
    batches := [];
    var left := peers;
    while left != []
      invariant Issuing(byPeer, batches, left)
      decreases |left|
    {
      var j := MinIndex(left);
      IssueStep(byPeer, batches, left, j);
      batches := batches + [Batch(left[j], byPeer[left[j]])];
      left := left[..j] + left[j + 1..];
    }
    assert Elems(left) == {};
  }

  /** Groups the ops by peer and issues one batch per distinct peer, in
      ascending peer order, each holding that peer's ops in their original
      order; no ops, no batch. */
  method SortedBatchP2P(ops: seq<P2POp>) returns (batches: seq<Batch>)
    ensures Ascending(batches)
    ensures PeerSet(batches) == PeersOf(ops)
    ensures forall b :: b in batches ==> b.ops == OpsTo(ops, b.peer)
    ensures ops == [] ==> batches == []
  {
    if |ops| == 0 {
      return [];
    }
    var byPeer, peers := GroupByPeer(ops);
    batches := IssueInPeerOrder(byPeer, peers);
  }

  // ---------------------------------------------------------------------------
  // The single-stage schedule object
  // ---------------------------------------------------------------------------

  /** What the schedule reads of a pipeline stage. */
  datatype Stage = Stage(stageIndex: nat, numStages: nat, groupSize: nat, groupRank: nat)

  predicate IsLast(s: Stage)
  {
    s.stageIndex + 1 == s.numStages
  }

  predicate ContainsLastStage(stages: seq<Stage>)
  {
    exists s :: s in stages && IsLast(s)
  }

  lemma SingleStageContainsLast(s: Stage)
    ensures ContainsLastStage([s]) <==> IsLast(s)
  {
    assert s in [s];
  }

  /** The losses of microbatches `0 .. k-1`, in order. */
  function LossesUpTo(k: nat): (ls: seq<Loss>)
    ensures |ls| == k && forall j :: 0 <= j < k ==> ls[j] == Loss(j)
  {
    seq(k, j requires 0 <= j => Loss(j))
  }

  lemma LossesSnoc(k: nat)
    ensures LossesUpTo(k + 1) == LossesUpTo(k) + [Loss(k)]
  {
  }

  class PipelineScheduleSingle {
    const nMicrobatches: nat
    const hasBackward: bool    // a loss function was given
    const stage: Stage
    var internalLosses: seq<Loss>

    predicate Valid()
    {
      stage.stageIndex < stage.numStages
    }

    /** The 1F1B step counts of this stage. */
    function Plan(): (p: OneFOneB.Plan)
      requires Valid()
      ensures OneFOneB.WellFormed(p)
      ensures p.n == nMicrobatches && p.hasBackward == hasBackward && p.isLast == IsLast(stage)
    {
      OneFOneB.PlanForWellFormed(nMicrobatches, stage.numStages, stage.stageIndex, hasBackward, IsLast(stage));
      OneFOneB.PlanFor(nMicrobatches, stage.numStages, stage.stageIndex, hasBackward, IsLast(stage))
    }

    constructor(stage: Stage, nMicrobatches: nat, hasLossFn: bool)
      requires stage.stageIndex < stage.numStages
      ensures Valid()
      ensures this.stage == stage && this.nMicrobatches == nMicrobatches && hasBackward == hasLossFn
      ensures internalLosses == []
    {
      this.stage := stage;
      this.nMicrobatches := nMicrobatches;
      hasBackward := hasLossFn;
      internalLosses := [];
    }

    /** The loss handed to the backward of microbatch `mb`. */
    function MaybeGetLoss(mb: int): (r: Result<Option<Loss>, ScheduleError>)
      reads this
      ensures r.Failure? <==> |internalLosses| != 0 && !(0 <= mb < |internalLosses|)
      ensures r.Failure? ==> r.error == LossUnavailable(mb, |internalLosses|)
      ensures r.Success? && r.value.Some? <==> IsLast(stage) && hasBackward && 0 <= mb < |internalLosses|
      ensures r.Success? && r.value.Some? ==> r.value.value == internalLosses[mb]
    {
      var validIndex := 0 <= mb < |internalLosses|;
      if IsLast(stage) && hasBackward && validIndex then Success(Some(internalLosses[mb]))
      else if |internalLosses| != 0 && !validIndex then Failure(LossUnavailable(mb, |internalLosses|))
      else Success(None)
    }

    /** On the last stage with a loss function, stores the loss of microbatch
        `mb`; the target list must then be there. */
    method MaybeComputeLoss<T>(targets: Given<T>, mb: nat) returns (o: Outcome<ScheduleError>)
      requires targets.Items? ==> mb < |targets.items|
      modifies this`internalLosses
      ensures IsLast(stage) && hasBackward && targets.Absent? ==>
                o == Fail(TargetsMissing) && internalLosses == old(internalLosses)
      ensures IsLast(stage) && hasBackward && !targets.Absent? ==>
                o == Pass && internalLosses == old(internalLosses) + [Loss(mb)]
      ensures !(IsLast(stage) && hasBackward) ==> o == Pass && internalLosses == old(internalLosses)
    {
      o := Pass;
      if IsLast(stage) && hasBackward {
        if targets.Absent? {
          return Fail(TargetsMissing);
        }
        internalLosses := internalLosses + [Loss(mb)];
      }
    }

    /** Hands the stored losses to the caller's container when one of `stages`
        is the last stage and a container was passed (raising unless exactly
        one loss per microbatch is stored), then forgets them. */
    method UpdateLosses(stages: seq<Stage>, losses: Given<Loss>) returns (r: Result<Given<Loss>, ScheduleError>)
      requires !losses.NotAList?
      modifies this`internalLosses
      ensures ContainsLastStage(stages) && losses.Items? && |old(internalLosses)| != nMicrobatches ==>
                r == Failure(LossCountError(nMicrobatches, |old(internalLosses)|)) &&
                internalLosses == old(internalLosses)
      ensures ContainsLastStage(stages) && losses.Items? && |old(internalLosses)| == nMicrobatches ==>
                r == Success(Items(old(internalLosses))) && internalLosses == []
      ensures !(ContainsLastStage(stages) && losses.Items?) ==>
                r == Success(losses) && internalLosses == []
    {
      var containsLastStage := ContainsLastStage(stages);
      r := Success(losses);
      if containsLastStage && losses.Items? {
        if |internalLosses| != nMicrobatches {
          return Failure(LossCountError(nMicrobatches, |internalLosses|));
        }
        r := Success(Items(internalLosses));
      }
      internalLosses := [];
    }

    /** The forward loop of GPipe: every microbatch's receive, forward and
        send, and its loss when due; only microbatch 0's loss can raise, when
        the last stage has a loss function but no targets. */
    method ForwardLoop<T>(targets: Given<T>) returns (o: Outcome<ScheduleError>, t: seq<Event>)
      requires Valid() && internalLosses == [] && Acceptable(targets, nMicrobatches)
      modifies this`internalLosses
      ensures o.Fail? <==> IsLast(stage) && hasBackward && targets.Absent? && nMicrobatches > 0
      ensures o.Fail? ==> o.error == TargetsMissing && t == GPipe.FwdStep(0)
      ensures o.Pass? ==>
                t == GPipe.ForwardPhase(nMicrobatches) &&
                internalLosses == if IsLast(stage) && hasBackward then LossesUpTo(nMicrobatches) else []
    {
      t := [];
      var storing := IsLast(stage) && hasBackward;
      var i := 0;
      while i < nMicrobatches
        invariant 0 <= i <= nMicrobatches
        invariant t == GPipe.ForwardPhase(i)
        invariant internalLosses == if storing then LossesUpTo(i) else []
        invariant storing && targets.Absent? ==> i == 0
      {
        t := t + [Comm([FwdRecv]), Forward(i), Comm([FwdSend])];
        o := MaybeComputeLoss(targets, i);
        if o.Fail? {
          return;
        }
        LossesSnoc(i);
        i := i + 1;
      }
      o := Pass;
    }

    /** The backward loop of GPipe: every microbatch's receive, backward
        (flagged last for the last microbatch, with its stored loss) and
        send. */
    method BackwardLoop() returns (t: seq<Event>)
      requires hasBackward && internalLosses == if IsLast(stage) then LossesUpTo(nMicrobatches) else []
      ensures t == GPipe.BackwardPhase(nMicrobatches, nMicrobatches, IsLast(stage))
    {
      t := [];
      var i := 0;
      while i < nMicrobatches
        invariant 0 <= i <= nMicrobatches
        invariant t == GPipe.BackwardPhase(i, nMicrobatches, IsLast(stage))
      {
        var last := i == nMicrobatches - 1;
        t := t + [Comm([BwdRecv])];
        var loss := MaybeGetLoss(i).value;
        t := t + [Backward(i, last, loss), Comm([BwdSend])];
        i := i + 1;
      }
    }

    /** One GPipe iteration: the trace is `GPipe.Trace`, no loss lookup
        raises, and the caller's container receives the loss of every
        microbatch on the last stage with a loss function. */
    method StepGPipe<A, K, T>(args: Given<A>, kwargs: Given<K>, targets: Given<T>, losses: Given<Loss>,
                              noArgs: A, noKwargs: K)
      returns (r: Result<Given<Loss>, ScheduleError>, t: seq<Event>)
      requires Valid() && internalLosses == []
      modifies this`internalLosses
      ensures var c := CheckInputs(nMicrobatches, args, kwargs, targets, losses, noArgs, noKwargs);
              c.Failure? ==> r == Failure(c.error) && t == [] && internalLosses == []
      ensures CheckInputs(nMicrobatches, args, kwargs, targets, losses, noArgs, noKwargs).Success? ==>
                if IsLast(stage) && hasBackward && targets.Absent? && nMicrobatches > 0 then
                  r == Failure(TargetsMissing) && t == GPipe.FwdStep(0)
                else
                  r.Success? && internalLosses == [] &&
                  t == GPipe.Trace(nMicrobatches, hasBackward, IsLast(stage)) &&
                  r.value == if IsLast(stage) && hasBackward && losses.Items? then Items(LossesUpTo(nMicrobatches))
                             else losses
    {
      t := [];
      var c := CheckInputs(nMicrobatches, args, kwargs, targets, losses, noArgs, noKwargs);
      if c.Failure? {
        return Failure(c.error), t;
      }
      var o;
      o, t := ForwardLoop(targets);
      if o.Fail? {
        return Failure(o.error), t;
      }
      if !hasBackward {
        return Success(losses), t;
      }
      var bwd := BackwardLoop();
      t := t + bwd;
      SingleStageContainsLast(stage);
      r := UpdateLosses([stage], losses);
      assert r.Success? by {
        assert IsLast(stage) ==> internalLosses == [] || |internalLosses| == nMicrobatches;
      }
    }

    /** One 1F1B iteration, with a step past the end having no backward: the
        trace is `OneFOneB.Trace` over all steps, no loss lookup raises, and
        the caller's container receives the loss of every microbatch on the
        last stage with a loss function. */
    method Step1F1B<A, K, T>(args: Given<A>, kwargs: Given<K>, targets: Given<T>, losses: Given<Loss>,
                             noArgs: A, noKwargs: K)
      returns (r: Result<Given<Loss>, ScheduleError>, t: seq<Event>)
      requires Valid() && internalLosses == []
      modifies this`internalLosses
      ensures var c := CheckInputs(nMicrobatches, args, kwargs, targets, losses, noArgs, noKwargs);
              c.Failure? ==> r == Failure(c.error) && t == [] && internalLosses == []
      ensures CheckInputs(nMicrobatches, args, kwargs, targets, losses, noArgs, noKwargs).Success? ==>
                if IsLast(stage) && hasBackward && targets.Absent? && nMicrobatches > 0 then
                  r == Failure(TargetsMissing) && t == OneFOneB.FwdBlock(0, OneFOneB.ShapeOf(Plan(), 0))
                else
                  t == OneFOneB.Trace(Plan(), Plan().total) &&
                  if IsLast(stage) && !hasBackward && losses.Items? && nMicrobatches > 0 then
                    r == Failure(LossCountError(nMicrobatches, 0)) && internalLosses == []
                  else
                    r.Success? && internalLosses == [] &&
                    r.value == if IsLast(stage) && losses.Items? then Items(LossesUpTo(nMicrobatches))
                               else losses
    {
      t := [];
      var c := CheckInputs(nMicrobatches, args, kwargs, targets, losses, noArgs, noKwargs);
      if c.Failure? {
        return Failure(c.error), t;
      }
      var o;
      o, t := RunSteps(targets);
      if o.Fail? {
        return Failure(o.error), t;
      }
      SingleStageContainsLast(stage);
      r := UpdateLosses([stage], losses);
    }

    /** The step loop of 1F1B; only the loss of step 0 can raise, when the
        last stage has a loss function but no targets. */
    method RunSteps<T>(targets: Given<T>) returns (o: Outcome<ScheduleError>, t: seq<Event>)
      requires Valid() && internalLosses == [] && Acceptable(targets, nMicrobatches)
      modifies this`internalLosses
      ensures o.Fail? <==> IsLast(stage) && hasBackward && targets.Absent? && nMicrobatches > 0
      ensures o.Fail? ==> o.error == TargetsMissing && t == OneFOneB.FwdBlock(0, OneFOneB.ShapeOf(Plan(), 0))
      ensures o.Pass? ==>
                t == OneFOneB.Trace(Plan(), Plan().total) &&
                internalLosses == if IsLast(stage) && hasBackward then LossesUpTo(nMicrobatches) else []
    {
      t := [];
      var p := Plan();
      var storing := IsLast(stage) && hasBackward;
      var bwdMbIndex := 0;
      var i := 0;
      while i < p.total
        invariant 0 <= i <= p.total
        invariant t == OneFOneB.Trace(p, i)
        invariant bwdMbIndex == OneFOneB.BackwardsBy(p, i)
        invariant internalLosses == if storing then LossesUpTo(Arith.Min(i, p.n)) else []
        invariant storing && targets.Absent? ==> i == 0 || p.n == 0
      {
        o, t, bwdMbIndex := Step(p, i, targets, t, bwdMbIndex);
        if o.Fail? {
          assert i == 0 && OneFOneB.Trace(p, 0) == [];
          return;
        }
        i := i + 1;
      }
      o := Pass;
    }

    /** One iteration of the 1F1B step loop: its forward half, then its
        backward half, extending the trace by the step's blocks. */
    method Step<T>(p: OneFOneB.Plan, i: nat, targets: Given<T>, t: seq<Event>, bwdMbIndex: nat)
      returns (o: Outcome<ScheduleError>, t': seq<Event>, bwdMbIndex': nat)
      requires Valid() && p == Plan() && i < p.total && Acceptable(targets, nMicrobatches)
      requires t == OneFOneB.Trace(p, i) && bwdMbIndex == OneFOneB.BackwardsBy(p, i)
      requires internalLosses == if IsLast(stage) && hasBackward then LossesUpTo(Arith.Min(i, p.n)) else []
      modifies this`internalLosses
      ensures o.Fail? <==> IsLast(stage) && hasBackward && targets.Absent? && OneFOneB.HasForward(p, i)
      ensures o.Fail? ==> o.error == TargetsMissing && t' == t + OneFOneB.FwdBlock(i, OneFOneB.ShapeOf(p, i))
      ensures o.Pass? ==>
                t' == OneFOneB.Trace(p, i + 1) && bwdMbIndex' == OneFOneB.BackwardsBy(p, i + 1) &&
                internalLosses == if IsLast(stage) && hasBackward then LossesUpTo(Arith.Min(i + 1, p.n)) else []
    {
      var fwd;
      o, fwd := ForwardHalf(p, i, targets);
      if o.Fail? {
        return o, t + fwd, bwdMbIndex;
      }
      var bwd := BackwardHalf(p, i, bwdMbIndex);
      OneFOneB.StepInvariant(p, i, t, fwd, bwd);
      t' := t + (fwd + bwd);
      bwdMbIndex' := if OneFOneB.HasBackward(p, i) then bwdMbIndex + 1 else bwdMbIndex;
    }

    /** The forward half of 1F1B step `i`: the receive (carrying the previous
        backward's send when coalesced), the chunk, the send unless it travels
        with this step's backward receive, and the loss of the microbatch. */
    method ForwardHalf<T>(p: OneFOneB.Plan, i: nat, targets: Given<T>)
      returns (o: Outcome<ScheduleError>, events: seq<Event>)
      requires Valid() && p == Plan() && i < p.total && Acceptable(targets, nMicrobatches)
      requires internalLosses == if IsLast(stage) && hasBackward then LossesUpTo(Arith.Min(i, p.n)) else []
      modifies this`internalLosses
      ensures events == OneFOneB.FwdBlock(i, OneFOneB.ShapeOf(p, i))
      ensures o.Fail? <==> IsLast(stage) && hasBackward && targets.Absent? && OneFOneB.HasForward(p, i)
      ensures o.Fail? ==> o.error == TargetsMissing && internalLosses == old(internalLosses)
      ensures o.Pass? ==>
                internalLosses == if IsLast(stage) && hasBackward then LossesUpTo(Arith.Min(i + 1, p.n)) else []
    {
      o, events := Pass, [];
      if OneFOneB.HasForward(p, i) {
        var ops := [FwdRecv] + (if OneFOneB.CoalesceBwdSendFwdRecv(p, i - 1) then [BwdSend] else []);
        events := [Comm(ops), Forward(i)];
        if !OneFOneB.CoalesceFwdSendBwdRecv(p, i) {
          events := events + [Comm([FwdSend])];
        }
        o := MaybeComputeLoss(targets, i);
        LossesSnoc(i);
      }
    }

    /** The backward half of 1F1B step `i`: the receive (carrying this step's
        forward send when coalesced), the chunk with its flag and stored loss,
        and the send unless it travels with the next forward receive. */
    method BackwardHalf(p: OneFOneB.Plan, i: nat, bwdMbIndex: nat) returns (events: seq<Event>)
      requires Valid() && p == Plan() && i < p.total && bwdMbIndex == OneFOneB.BackwardsBy(p, i)
      requires internalLosses == if IsLast(stage) && hasBackward then LossesUpTo(Arith.Min(i + 1, p.n)) else []
      ensures events == OneFOneB.BwdBlock(OneFOneB.ShapeOf(p, i))
    {
      events := [];
      if OneFOneB.HasBackward(p, i) {
        var last := i == p.total - 1;
        var ops := [BwdRecv] + (if OneFOneB.CoalesceFwdSendBwdRecv(p, i) then [FwdSend] else []);
        var loss := MaybeGetLoss(bwdMbIndex).value;
        events := [Comm(ops), Backward(bwdMbIndex, last, loss)];
        if !OneFOneB.CoalesceBwdSendFwdRecv(p, i) {
          events := events + [Comm([BwdSend])];
        }
      }
    }
  }
}
