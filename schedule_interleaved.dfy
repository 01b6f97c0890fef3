// The multi-stage schedule objects: `PipelineScheduleMulti`, which holds
// several local stages, and `ScheduleInterleaved1F1B`, which precomputes the
// order of forward and backward chunks every pipeline rank runs.

module ScheduleInterleaved {
  import opened Wrappers
  import opened Arith
  import PS = PipelineSchedule

  datatype ComputationType = Forward | Backward

  /** One slot of a rank's row: the chunk kind, the microbatch, the stage. */
  datatype Action = Action(kind: ComputationType, mb: nat, stage: nat)

  // ---------------------------------------------------------------------------
  // Step counts and stage indices of one rank
  // ---------------------------------------------------------------------------

  datatype Counts = Counts(warmup: nat, fwdBwd: nat, cooldown: nat, total: nat)

  /** `get_rank_warmup_steps` and the phase lengths derived from it, for `L`
      local stages per rank, `pp` ranks and `n` microbatches. The warmup is
      capped by the number of forwards, the cooldown drains exactly what the
      warmup ran ahead, and the Python `assert` always holds. */
  function RankCounts(L: nat, pp: nat, n: nat, rank: nat): (c: Counts)
    requires L >= 1 && rank < pp
    ensures c.warmup <= L * n
    ensures c.warmup == Min((L - 1) * pp + 2 * (pp - 1 - rank), n * L)
    ensures c.fwdBwd == L * n - c.warmup && c.cooldown == c.warmup
    ensures c.warmup + 2 * c.fwdBwd + c.cooldown == 2 * (L * n)
    ensures c.total == L * n + c.warmup
    ensures L >= 2 ==> (c.warmup == 0 <==> n == 0)
  {
    CountsArith(L, pp, n);
    var warmup := Min((L - 1) * pp + 2 * (pp - 1 - rank), n * L);
    var fwdBwd := L * n - warmup;
    var cooldown := L * n - fwdBwd;
    Counts(warmup, fwdBwd, cooldown, warmup + fwdBwd + cooldown)
  }

  /** The products behind `RankCounts`. */
  lemma CountsArith(L: nat, pp: nat, n: nat)
    requires L >= 1
    ensures (L - 1) * pp >= 0 && n * L == L * n >= 0
    ensures L >= 2 ==> (L - 1) * pp >= pp
    ensures L * n == 0 <==> n == 0
  {
    if L >= 2 { MulMonotone(1, L - 1, pp); }
    if n > 0 { MulMonotone(1, L, n); }
  }

  /** `forward_stage_index`: the stages of rank `rank` are `rank`,
      `rank + pp`, .., and the forwards cycle through them in blocks of
      `pp` steps. */
  function ForwardStageIndex(L: nat, pp: nat, rank: nat, step: nat): (s: nat)
    requires L >= 1 && rank < pp
    ensures s % pp == rank && s / pp == (step / pp) % L && s < L * pp
  {
    var local := (step / pp) % L;
    OnRank(L, pp, rank, local);
    local * pp + rank
  }

  /** `backward_stage_index`: the backwards cycle through the same stages in
      the opposite order, counted from the end of the warmup. */
  function BackwardStageIndex(L: nat, pp: nat, rank: nat, warmup: nat, step: nat): (s: nat)
    requires L >= 1 && rank < pp && step >= warmup
    ensures s % pp == rank && s / pp == L - 1 - ((step - warmup) / pp) % L && s < L * pp
  {
    var local := L - 1 - ((step - warmup) / pp) % L;
    OnRank(L, pp, rank, local);
    local * pp + rank
  }

  lemma OnRank(L: nat, pp: nat, rank: nat, local: nat)
    requires rank < pp && local < L
    ensures (local * pp + rank) % pp == rank && (local * pp + rank) / pp == local
    ensures local * pp + rank < L * pp
  {
    DivModUnique(local * pp + rank, pp, local, rank);
    MulMonotone(local, L - 1, pp);
    assert (L - 1) * pp + pp == L * pp;
  }

  // ---------------------------------------------------------------------------
  // A rank's row and its bookkeeping
  // ---------------------------------------------------------------------------

  type Row = seq<Option<Action>>

  predicate Is(o: Option<Action>, kind: ComputationType, stage: nat)
  {
    o.Some? && o.value.kind == kind && o.value.stage == stage
  }

  /** Slots of `kind` on stage `stage`. */
  function Count(ops: Row, kind: ComputationType, stage: nat): nat
  {
    if ops == [] then 0
    else Count(ops[..|ops| - 1], kind, stage) + (if Is(ops[|ops| - 1], kind, stage) then 1 else 0)
  }

  /** Slots of `kind` on any stage. */
  function KindCount(ops: Row, kind: ComputationType): nat
  {
    if ops == [] then 0
    else KindCount(ops[..|ops| - 1], kind) + (if ops[|ops| - 1].Some? && ops[|ops| - 1].value.kind == kind then 1 else 0)
  }

  /** Each stage numbers its forwards, and separately its backwards,
      `0, 1, 2, ..` in row order: every slot carries the number of earlier
      slots of its kind on its stage (see `CountedNumbering`). */
  predicate Counted(ops: Row)
  {
    ops == [] ||
    (Counted(ops[..|ops| - 1]) &&
     (ops[|ops| - 1].Some? ==>
        ops[|ops| - 1].value.mb == Count(ops[..|ops| - 1], ops[|ops| - 1].value.kind, ops[|ops| - 1].value.stage)))
  }

  lemma {:induction false} CountedNumbering(ops: Row)
    requires Counted(ops)
    ensures forall i :: 0 <= i < |ops| && ops[i].Some? ==>
              ops[i].value.mb == Count(ops[..i], ops[i].value.kind, ops[i].value.stage)
  {
    if ops != [] {
      var init := ops[..|ops| - 1];
      CountedNumbering(init);
      forall i | 0 <= i < |init|
        ensures ops[..i] == init[..i] && ops[i] == init[i]
      {
      }
    }
  }

  /** On each of its stages a row runs microbatches `0 .. n-1` once
      each, in increasing order, for forwards and for backwards alike:
      every number is below `n`, and later slots of a kind on a stage
      carry larger numbers (with `n` slots per stage, these are exactly
      `0 .. n-1`). */
  lemma StageMicrobatches(ops: Row, L: nat, pp: nat, r: nat, n: nat)
    requires Counted(ops) && StagesOk(ops, L, pp, r) && StageTotals(ops, L, pp, r, n)
    ensures forall i :: 0 <= i < |ops| && ops[i].Some? ==> ops[i].value.mb < n
    ensures forall i, i' :: 0 <= i < i' < |ops| && ops[i].Some? && Is(ops[i'], ops[i].value.kind, ops[i].value.stage) ==>
              ops[i].value.mb < ops[i'].value.mb
  {
    CountedNumbering(ops);
    forall i | 0 <= i < |ops| && ops[i].Some?
      ensures ops[i].value.mb < n
    {
      SlotBelowTotal(ops, L, pp, r, n, i);
    }
    forall i, i' | 0 <= i < i' < |ops| && ops[i].Some? && Is(ops[i'], ops[i].value.kind, ops[i].value.stage)
      ensures ops[i].value.mb < ops[i'].value.mb
    {
      CountPrefix(ops, ops[i].value.kind, ops[i].value.stage, i + 1, i');
      CountStep(ops, ops[i].value.kind, ops[i].value.stage, i);
    }
  }

  lemma SlotBelowTotal(ops: Row, L: nat, pp: nat, r: nat, n: nat, i: nat)
    requires StagesOk(ops, L, pp, r) && StageTotals(ops, L, pp, r, n)
    requires i < |ops| && ops[i].Some?
    requires ops[i].value.mb == Count(ops[..i], ops[i].value.kind, ops[i].value.stage)
    ensures ops[i].value.mb < n
  {
    var a := ops[i].value;
    var j := a.stage / pp;
    assert a.stage == pp * j + r;
    assert j < L by {
      if j >= L {
        MulMonotone(L, j, pp);
      }
    }
    assert StageOf(pp, r, j) == a.stage;
    if a.kind == Forward {
      assert Count(ops, Forward, StageOf(pp, r, j)) == n;
    } else {
      assert Count(ops, Backward, StageOf(pp, r, j)) == n;
    }
    CountPrefix(ops, a.kind, a.stage, i + 1, |ops|);
    CountStep(ops, a.kind, a.stage, i);
    assert ops[..|ops|] == ops;
  }

  /** Counting over a longer prefix never gives less. */
  lemma {:induction false} CountPrefix(ops: Row, kind: ComputationType, stage: nat, a: nat, b: nat)
    requires a <= b <= |ops|
    ensures Count(ops[..a], kind, stage) <= Count(ops[..b], kind, stage)
    decreases b - a
  {
    if a < b {
      CountPrefix(ops, kind, stage, a, b - 1);
      assert ops[..b][..b - 1] == ops[..b - 1];
    }
  }

  lemma CountStep(ops: Row, kind: ComputationType, stage: nat, i: nat)
    requires i < |ops|
    ensures Count(ops[..i + 1], kind, stage) == Count(ops[..i], kind, stage) + (if Is(ops[i], kind, stage) then 1 else 0)
  {
    assert ops[..i + 1][..i] == ops[..i];
  }

  /** A `defaultdict(int)` counter (absent keys read as 0). */
  function Get(m: map<nat, nat>, k: nat): nat
  {
    if k in m then m[k] else 0
  }

  /** The counter holds, per stage, the slots of `kind` issued so far. */
  ghost predicate Tracked(ops: Row, m: map<nat, nat>, kind: ComputationType)
  {
    forall s :: Get(m, s) == Count(ops, kind, s)
  }

  ghost predicate Book(ops: Row, fwd: map<nat, nat>, bwd: map<nat, nat>)
  {
    Counted(ops) && Tracked(ops, fwd, Forward) && Tracked(ops, bwd, Backward)
  }

  /** Each of the `L` stages of rank `rank` runs `n` forwards and `n`
      backwards. */
  predicate StageTotals(ops: Row, L: nat, pp: nat, rank: nat, n: nat)
  {
    forall j :: 0 <= j < L ==>
      Count(ops, Forward, StageOf(pp, rank, j)) == n && Count(ops, Backward, StageOf(pp, rank, j)) == n
  }

  /** Local index `j` of rank `rank` is stage `j * pp + rank`. */
  function StageOf(pp: nat, rank: nat, j: nat): nat
  {
    j * pp + rank
  }

  /** Every slot runs one of the rank's own stages. */
  predicate StagesOk(ops: Row, L: nat, pp: nat, rank: nat)
  {
    forall i :: 0 <= i < |ops| && ops[i].Some? ==>
      pp > 0 && ops[i].value.stage % pp == rank && ops[i].value.stage < L * pp
  }

  lemma SnocSome(ops: Row, a: Action)
    requires Counted(ops) && a.mb == Count(ops, a.kind, a.stage)
    ensures Counted(ops + [Some(a)])
    ensures forall k, t :: Count(ops + [Some(a)], k, t) == Count(ops, k, t) + (if a.kind == k && a.stage == t then 1 else 0)
    ensures forall k :: KindCount(ops + [Some(a)], k) == KindCount(ops, k) + (if a.kind == k then 1 else 0)
  {
    assert (ops + [Some(a)])[..|ops|] == ops;
  }

  lemma SnocNone(ops: Row)
    requires Counted(ops)
    ensures Counted(ops + [None])
    ensures forall k, t :: Count(ops + [None], k, t) == Count(ops, k, t)
    ensures forall k :: KindCount(ops + [None], k) == KindCount(ops, k)
  {
    assert (ops + [None])[..|ops|] == ops;
  }

  /** `counter[s] = (mb := counter[s]) + 1` followed by
      `rank_ops.append((kind, mb, s))`. */
  method Put(ops: Row, fwd: map<nat, nat>, bwd: map<nat, nat>, kind: ComputationType, s: nat)
    returns (ops': Row, fwd': map<nat, nat>, bwd': map<nat, nat>)
    requires Book(ops, fwd, bwd)
    ensures Book(ops', fwd', bwd')
    ensures ops' == ops + [Some(Action(kind, Count(ops, kind, s), s))]
    ensures forall k, t :: Count(ops', k, t) == Count(ops, k, t) + (if kind == k && s == t then 1 else 0)
    ensures forall k :: KindCount(ops', k) == KindCount(ops, k) + (if kind == k then 1 else 0)
  {
    var mb;
    if kind == Forward {
      mb := Get(fwd, s);
      fwd', bwd' := fwd[s := mb + 1], bwd;
    } else {
      mb := Get(bwd, s);
      fwd', bwd' := fwd, bwd[s := mb + 1];
    }
    ops' := ops + [Some(Action(kind, mb, s))];
    SnocSome(ops, Action(kind, mb, s));
  }

  /** Where each kind of slot sits in the row of rank `rank`: `rank` idle
      slots, the warmup forwards, two idle slots on rank 0 (`post0`) while
      the first backward travels back, forward/backward pairs, idle/backward
      pairs of the cooldown, and idle slots up to the common length. */
  function SlotKind(rank: nat, warmup: nat, post0: nat, fwdBwd: nat, p: nat): Option<ComputationType>
  {
    if p < rank then None
    else if p < rank + warmup then Some(Forward)
    else if p < rank + warmup + post0 then None
    else
      var q := p - (rank + warmup + post0);
      if q < 2 * fwdBwd then (if q % 2 == 0 then Some(Forward) else Some(Backward))
      else if q < 2 * fwdBwd + 2 * warmup then (if q % 2 == 0 then None else Some(Backward))
      else None
  }

  function KindOf(o: Option<Action>): Option<ComputationType>
  {
    if o.Some? then Some(o.value.kind) else None
  }

  predicate Laid(ops: Row, rank: nat, warmup: nat, post0: nat, fwdBwd: nat)
  {
    forall p :: 0 <= p < |ops| ==> KindOf(ops[p]) == SlotKind(rank, warmup, post0, fwdBwd, p)
  }

  // ---------------------------------------------------------------------------
  // The schedule objects
  // ---------------------------------------------------------------------------

  class PipelineScheduleMulti {
    const stages: seq<PS.Stage>
    const nMicrobatches: nat
    const hasBackward: bool    // a loss function was given
    const numStages: nat

    /** `PipelineScheduleMulti.__init__`: more than one local stage is
        required; the total stage count is read from the first stage. */
    static method Create(stages: seq<PS.Stage>, nMicrobatches: nat, hasLossFn: bool)
      returns (r: Result<PipelineScheduleMulti, PS.ScheduleError>)
      ensures r.Failure? <==> |stages| <= 1
      ensures r.Failure? ==> r.error == PS.TooFewStages(|stages|)
      ensures r.Success? ==>
                fresh(r.value) && r.value.stages == stages &&
                r.value.nMicrobatches == nMicrobatches && r.value.hasBackward == hasLossFn &&
                r.value.numStages == stages[0].numStages
    {
      if |stages| <= 1 {
        return Failure(PS.TooFewStages(|stages|));
      }
      var m := new PipelineScheduleMulti(stages, nMicrobatches, hasLossFn);
      return Success(m);
    }

    constructor(stages: seq<PS.Stage>, nMicrobatches: nat, hasLossFn: bool)
      requires |stages| >= 1
      ensures this.stages == stages && this.nMicrobatches == nMicrobatches
      ensures hasBackward == hasLossFn && numStages == stages[0].numStages
    {
      this.stages := stages;
      this.nMicrobatches := nMicrobatches;
      hasBackward := hasLossFn;
      numStages := stages[0].numStages;
    }
  }

  class ScheduleInterleaved1F1B {
    const base: PipelineScheduleMulti
    const ppGroupSize: nat
    const nLocalStages: nat
    const nMicrobatches: nat
    const rank: nat
    var pipelineOrder: seq<Row>

    predicate Valid()
    {
      nLocalStages >= 2 && ppGroupSize >= 1 && nMicrobatches % ppGroupSize == 0
    }

    function Counts(r: nat): (c: Counts)
      requires Valid() && r < ppGroupSize
    {
      RankCounts(nLocalStages, ppGroupSize, nMicrobatches, r)
    }

    /** The idle slots rank 0 inserts after a non-empty warmup. */
    function Post0(r: nat): nat
      requires Valid() && r < ppGroupSize
    {
      if r == 0 && Counts(r).warmup > 0 then 2 else 0
    }

    constructor(base: PipelineScheduleMulti, ppGroupSize: nat, nLocalStages: nat, nMicrobatches: nat, rank: nat)
      requires nLocalStages >= 2 && ppGroupSize >= 1 && nMicrobatches % ppGroupSize == 0
      ensures Valid() && pipelineOrder == []
      ensures this.base == base && this.ppGroupSize == ppGroupSize && this.nLocalStages == nLocalStages
      ensures this.nMicrobatches == nMicrobatches && this.rank == rank
    {
      this.base := base;
      this.ppGroupSize := ppGroupSize;
      this.nLocalStages := nLocalStages;
      this.nMicrobatches := nMicrobatches;
      this.rank := rank;
      pipelineOrder := [];
    }

    /** `ScheduleInterleaved1F1B.__init__`: the group size comes from the
        first stage (an empty list fails there), the microbatch count must be a
        multiple of it (a zero group size fails the modulo), then the
        multi-stage checks run, and the row of every rank is computed. */
    static method Create(stages: seq<PS.Stage>, nMicrobatches: nat, hasLossFn: bool)
      returns (r: Result<ScheduleInterleaved1F1B, PS.ScheduleError>)
      ensures |stages| == 0 ==> r == Failure(PS.NoStages)
      ensures |stages| > 0 && stages[0].groupSize == 0 ==> r == Failure(PS.ZeroGroupSize)
      ensures |stages| > 0 && stages[0].groupSize > 0 && nMicrobatches % stages[0].groupSize != 0 ==>
                r == Failure(PS.MicrobatchesNotMultiple(nMicrobatches, stages[0].groupSize))
      ensures |stages| > 0 && stages[0].groupSize > 0 && nMicrobatches % stages[0].groupSize == 0 ==>
                (r.Failure? <==> |stages| == 1) &&
                (r.Failure? ==> r.error == PS.TooFewStages(1))
      ensures r.Success? ==>
                var s := r.value;
                fresh(s) && s.Valid() && s.ppGroupSize == stages[0].groupSize &&
                s.nLocalStages == |stages| && s.rank == stages[0].groupRank &&
                s.nMicrobatches == nMicrobatches && s.base.stages == stages &&
                s.base.hasBackward == hasLossFn &&
                |s.pipelineOrder| == s.ppGroupSize &&
                forall q :: 0 <= q < s.ppGroupSize ==> s.RowOk(q, s.pipelineOrder[q])
    {
      if |stages| == 0 {
        return Failure(PS.NoStages);
      }
      var pp := stages[0].groupSize;
      if pp == 0 {
        return Failure(PS.ZeroGroupSize);
      }
      if nMicrobatches % pp != 0 {
        return Failure(PS.MicrobatchesNotMultiple(nMicrobatches, pp));
      }
      var m := PipelineScheduleMulti.Create(stages, nMicrobatches, hasLossFn);
      if m.Failure? {
        return Failure(m.error);
      }
      var s := new ScheduleInterleaved1F1B(m.value, pp, |stages|, nMicrobatches, stages[0].groupRank);
      var q := 0;
      while q < pp
        invariant 0 <= q <= pp && |s.pipelineOrder| == q
        invariant forall q' :: 0 <= q' < q ==> s.RowOk(q', s.pipelineOrder[q'])
      {
        var ops := s.CalculateSingleRankOperations(q);
        s.pipelineOrder := s.pipelineOrder + [ops];
        q := q + 1;
      }
      return Success(s);
    }

    /** What `_calculate_single_rank_operations` guarantees of the row of
        rank `r`: its length and slot layout, `L * n` forwards and `L * n`
        backwards in total, only stages of rank `r`, each stage numbering its
        microbatches per kind consecutively, and exactly `n` forwards and `n`
        backwards on each of the rank's `L` stages. */
    predicate RowOk(r: nat, ops: Row)
      requires Valid() && r < ppGroupSize
    {
      var L, pp, n, c := nLocalStages, ppGroupSize, nMicrobatches, Counts(r);
      |ops| == pp - 1 + c.warmup + Post0(r) + 2 * c.fwdBwd + 2 * c.cooldown &&
      Laid(ops, r, c.warmup, Post0(r), c.fwdBwd) &&
      KindCount(ops, Forward) == L * n && KindCount(ops, Backward) == L * n &&
      StagesOk(ops, L, pp, r) && Counted(ops) && StageTotals(ops, L, pp, r, n)
    }

    /** The row of rank `r`, with `r` idle slots before its first chunk and
        `pp - r - 1` after its last, so that all rows line up. */
    method CalculateSingleRankOperations(r: nat) returns (ops: Row)
      requires Valid() && r < ppGroupSize
      ensures RowOk(r, ops)
      ensures forall i :: 0 <= i < r ==> ops[i] == None
      ensures forall i :: |ops| - (ppGroupSize - r - 1) <= i < |ops| ==> ops[i] == None
    {
      var L, pp, n := nLocalStages, ppGroupSize, nMicrobatches;
      var c := RankCounts(L, pp, n, r);
      var warmup, fwdBwd, cooldown := c.warmup, c.fwdBwd, c.cooldown;
      assert warmup + fwdBwd * 2 + cooldown == L * n * 2;
      var fwd: map<nat, nat>, bwd: map<nat, nat> := map[], map[];
      ops := [];
      var k := 0;
      while k < r
        invariant 0 <= k <= r && ops == Idle(k)
      {
        ops := ops + [None];
        k := k + 1;
      }
      StartProgress(r, ops);
      ops, fwd, bwd := RunSteps(r, ops, fwd, bwd);
      ops := PadTail(r, ops, fwd, bwd);
      RowPadding(r, ops);
    }

    /** The step loop over `warmup + fwdBwd + cooldown` steps. */
    method RunSteps(r: nat, ops: Row, fwd: map<nat, nat>, bwd: map<nat, nat>)
      returns (ops': Row, fwd': map<nat, nat>, bwd': map<nat, nat>)
      requires Valid() && r < ppGroupSize && Progress(r, 0, ops, fwd, bwd)
      ensures Progress(r, Counts(r).total, ops', fwd', bwd')
    {
      var c := Counts(r);
      var warmup, fwdBwd := c.warmup, c.fwdBwd;
      var total := warmup + fwdBwd + c.cooldown;
      ops', fwd', bwd' := ops, fwd, bwd;
      var postWarmup := if r == 0 then 2 else 0;
      var step := 0;
      while step < total
        invariant 0 <= step <= total
        invariant Progress(r, step, ops', fwd', bwd')
        invariant postWarmup == if step < warmup || warmup == 0 then (if r == 0 then 2 else 0) else 0
      {
        if step < warmup {
          ops', fwd', bwd', postWarmup := WarmupStep(r, step, ops', fwd', bwd', postWarmup);
        } else if step < warmup + fwdBwd {
          ops', fwd', bwd' := SteadyStep(r, step, ops', fwd', bwd');
        } else {
          ops', fwd', bwd' := CooldownStep(r, step, ops', fwd', bwd');
        }
        step := step + 1;
      }
    }

    /** The idle slots after the last step, and the totals per stage. */
    method PadTail(r: nat, ops: Row, fwd: map<nat, nat>, bwd: map<nat, nat>) returns (ops': Row)
      requires Valid() && r < ppGroupSize && Progress(r, Counts(r).total, ops, fwd, bwd)
      ensures RowOk(r, ops')
    {
      var L, pp, n := nLocalStages, ppGroupSize, nMicrobatches;
      var c := Counts(r);
      var post0 := Post0(r);
      assert Min(c.total, L * n) == L * n && Max(0, c.total - c.warmup) == L * n;
      ops' := ops;
      var fwd', bwd' := fwd, bwd;
      var k := 0;
      while k < pp - r - 1
        invariant 0 <= k <= pp - r - 1
        invariant Book(ops', fwd', bwd') && StagesOk(ops', L, pp, r)
        invariant |ops'| == r + Filled(c.warmup, post0, c.total) + k
        invariant Laid(ops', r, c.warmup, post0, c.fwdBwd)
        invariant KindCount(ops', Forward) == L * n && KindCount(ops', Backward) == L * n
        invariant PerStage(ops', L, pp, r, L * n, L * n)
      {
        SnocNone(ops');
        PerStageIdle(ops', L, pp, r, L * n, L * n);
        LaidIdle(ops', r, c.warmup, post0, c.fwdBwd);
        StagesSnoc(ops', None, L, pp, r);
        ops' := ops' + [None];
        k := k + 1;
      }
      forall j | 0 <= j < L
        ensures Count(ops', Forward, StageOf(pp, r, j)) == n && Count(ops', Backward, StageOf(pp, r, j)) == n
      {
        EveryLocalIndex(L, pp, n, j);
        EveryLocalIndex(L, pp, n, L - 1 - j);
      }
    }

    /** The layout puts `r` idle slots first and `pp - r - 1` last. */
    lemma RowPadding(r: nat, ops: Row)
      requires Valid() && r < ppGroupSize && RowOk(r, ops)
      ensures forall i :: 0 <= i < r ==> ops[i] == None
      ensures forall i :: |ops| - (ppGroupSize - r - 1) <= i < |ops| ==> ops[i] == None
    {
      var c := Counts(r);
      forall i | 0 <= i < |ops| && (i < r || i >= |ops| - (ppGroupSize - r - 1))
        ensures ops[i] == None
      {
        assert KindOf(ops[i]) == SlotKind(r, c.warmup, Post0(r), c.fwdBwd, i);
      }
    }

    /** What the first `step` iterations of the step loop have built. */
    ghost predicate Progress(r: nat, step: nat, ops: Row, fwd: map<nat, nat>, bwd: map<nat, nat>)
      requires Valid() && r < ppGroupSize
    {
      Book(ops, fwd, bwd) && StagesOk(ops, nLocalStages, ppGroupSize, r) && Shaped(r, step, ops) &&
      PerStage(ops, nLocalStages, ppGroupSize, r,
               Min(step, nLocalStages * nMicrobatches), Max(0, step - Counts(r).warmup))
    }

    /** The length, slot layout and per-kind totals after `step` steps. */
    ghost predicate Shaped(r: nat, step: nat, ops: Row)
      requires Valid() && r < ppGroupSize
    {
      var c := Counts(r);
      |ops| == r + Filled(c.warmup, Post0(r), step) &&
      Laid(ops, r, c.warmup, Post0(r), c.fwdBwd) &&
      KindCount(ops, Forward) == Min(step, nLocalStages * nMicrobatches) &&
      KindCount(ops, Backward) == Max(0, step - c.warmup)
    }

    lemma StartProgress(r: nat, ops: Row)
      requires Valid() && r < ppGroupSize && ops == Idle(r)
      ensures Progress(r, 0, ops, map[], map[])
    {
      NoneRow(r);
      assert Min(0, nLocalStages * nMicrobatches) == 0;
    }

    /** A warmup step: one forward, and on the last warmup step the idle
        slots that wait for the first backward. */
    method WarmupStep(r: nat, step: nat, ops: Row, fwd: map<nat, nat>, bwd: map<nat, nat>, postWarmup: nat)
      returns (ops': Row, fwd': map<nat, nat>, bwd': map<nat, nat>, postWarmup': nat)
      requires Valid() && r < ppGroupSize && step < Counts(r).warmup
      requires Progress(r, step, ops, fwd, bwd)
      requires postWarmup == if r == 0 then 2 else 0
      ensures Progress(r, step + 1, ops', fwd', bwd')
      ensures postWarmup' == if step + 1 < Counts(r).warmup then postWarmup else 0
    {
      var c := Counts(r);
      var s := ForwardStageIndex(nLocalStages, ppGroupSize, r, step);
      assert Min(step, nLocalStages * nMicrobatches) == step && Min(step + 1, nLocalStages * nMicrobatches) == step + 1;
      assert Max(0, step - c.warmup) == 0 && Max(0, step + 1 - c.warmup) == 0;
      ops', fwd', bwd' := Put(ops, fwd, bwd, Forward, s);
      StagesSnoc(ops, Some(Action(Forward, Count(ops, Forward, s), s)), nLocalStages, ppGroupSize, r);
      PerStageForward(ops, nLocalStages, ppGroupSize, r, step, 0, s);
      postWarmup' := postWarmup;
      if step == c.warmup - 1 {
        while postWarmup' > 0
          invariant postWarmup' <= postWarmup
          invariant Book(ops', fwd', bwd') && StagesOk(ops', nLocalStages, ppGroupSize, r)
          invariant |ops'| == |ops| + 1 + (postWarmup - postWarmup')
          invariant ops'[..|ops| + 1] == ops + [Some(Action(Forward, Count(ops, Forward, s), s))]
          invariant forall i :: |ops| + 1 <= i < |ops'| ==> ops'[i] == None
          invariant KindCount(ops', Forward) == KindCount(ops, Forward) + 1
          invariant KindCount(ops', Backward) == KindCount(ops, Backward)
          invariant PerStage(ops', nLocalStages, ppGroupSize, r, step + 1, 0)
        {
          SnocNone(ops');
          StagesSnoc(ops', None, nLocalStages, ppGroupSize, r);
          PerStageIdle(ops', nLocalStages, ppGroupSize, r, step + 1, 0);
          ops' := ops' + [None];
          postWarmup' := postWarmup' - 1;
        }
      }
      WarmupLaid(ops, ops', r, c, Post0(r), step, s);
    }

    /** A step of the steady phase: one forward, then one backward. */
    method SteadyStep(r: nat, step: nat, ops: Row, fwd: map<nat, nat>, bwd: map<nat, nat>)
      returns (ops': Row, fwd': map<nat, nat>, bwd': map<nat, nat>)
      requires Valid() && r < ppGroupSize
      requires Counts(r).warmup <= step < Counts(r).warmup + Counts(r).fwdBwd
      requires Progress(r, step, ops, fwd, bwd)
      ensures Progress(r, step + 1, ops', fwd', bwd')
    {
      var c := Counts(r);
      var L, pp := nLocalStages, ppGroupSize;
      var s := ForwardStageIndex(L, pp, r, step);
      assert Min(step, L * nMicrobatches) == step && Min(step + 1, L * nMicrobatches) == step + 1;
      assert Max(0, step - c.warmup) == step - c.warmup && Max(0, step + 1 - c.warmup) == step + 1 - c.warmup;
      var o1, f1, b1 := Put(ops, fwd, bwd, Forward, s);
      StagesSnoc(ops, o1[|ops|], L, pp, r);
      PerStageForward(ops, L, pp, r, step, step - c.warmup, s);
      var t := BackwardStageIndex(L, pp, r, c.warmup, step);
      ops', fwd', bwd' := Put(o1, f1, b1, Backward, t);
      StagesSnoc(o1, ops'[|o1|], L, pp, r);
      PerStageBackward(o1, L, pp, r, step + 1, step - c.warmup, t);
      assert ops'[..|ops|] == ops;
      PairProgress(r, step, ops, ops', Forward);
    }

    /** A cooldown step: an idle slot, then one backward. */
    method CooldownStep(r: nat, step: nat, ops: Row, fwd: map<nat, nat>, bwd: map<nat, nat>)
      returns (ops': Row, fwd': map<nat, nat>, bwd': map<nat, nat>)
      requires Valid() && r < ppGroupSize
      requires Counts(r).warmup + Counts(r).fwdBwd <= step < Counts(r).total
      requires Progress(r, step, ops, fwd, bwd)
      ensures Progress(r, step + 1, ops', fwd', bwd')
    {
      var c := Counts(r);
      var L, pp := nLocalStages, ppGroupSize;
      var ln := L * nMicrobatches;
      assert Min(step, ln) == ln && Min(step + 1, ln) == ln;
      assert Max(0, step - c.warmup) == step - c.warmup && Max(0, step + 1 - c.warmup) == step + 1 - c.warmup;
      SnocNone(ops);
      StagesSnoc(ops, None, L, pp, r);
      var o1 := ops + [None];
      PerStageIdle(ops, L, pp, r, ln, step - c.warmup);
      var t := BackwardStageIndex(L, pp, r, c.warmup, step);
      ops', fwd', bwd' := Put(o1, fwd, bwd, Backward, t);
      StagesSnoc(o1, ops'[|o1|], L, pp, r);
      PerStageBackward(o1, L, pp, r, ln, step - c.warmup, t);
      assert ops'[..|ops|] == ops;
      PairProgress(r, step, ops, ops', Backward);
    }


  /** A steady or cooldown step appends a slot pair in its place. */
    lemma PairProgress(r: nat, step: nat, ops: Row, ops': Row, first: ComputationType)
      requires Valid() && r < ppGroupSize
      requires Counts(r).warmup <= step < Counts(r).total
      requires first == Forward <==> step < Counts(r).warmup + Counts(r).fwdBwd
      requires Shaped(r, step, ops)
      requires |ops'| == |ops| + 2 && ops'[..|ops|] == ops
      requires KindOf(ops'[|ops|]) == (if first == Forward then Some(Forward) else None)
      requires KindOf(ops'[|ops| + 1]) == Some(Backward)
      requires KindCount(ops', Forward) == KindCount(ops, Forward) + (if first == Forward then 1 else 0)
      requires KindCount(ops', Backward) == KindCount(ops, Backward) + 1
      ensures Shaped(r, step + 1, ops')
    {
      var c := Counts(r);
      var w, post0, ln := c.warmup, Post0(r), nLocalStages * nMicrobatches;
      assert nMicrobatches == 0 ==> ln == 0;
      assert w > 0;
      assert |ops'| == r + Filled(w, post0, step + 1);
      assert KindCount(ops', Forward) == Min(step + 1, ln);
      assert KindCount(ops', Backward) == Max(0, step + 1 - w);
      PairLaid(ops, ops', r, c, post0, step, first);
    }
  }

  /** Per local stage `j` of rank `rank` (stage `j * pp + rank`): the
      forwards issued by the first `kf` forward steps and the backwards issued
      by the first `kb` backward steps. */
  ghost predicate PerStage(ops: Row, L: nat, pp: nat, rank: nat, kf: nat, kb: nat)
    requires L >= 1 && pp >= 1
  {
    forall j :: 0 <= j < L ==>
      Count(ops, Forward, StageOf(pp, rank, j)) == Hits(L, pp, j, kf) &&
      Count(ops, Backward, StageOf(pp, rank, j)) == Hits(L, pp, L - 1 - j, kb)
  }

  lemma PerStageIdle(ops: Row, L: nat, pp: nat, rank: nat, kf: nat, kb: nat)
    requires L >= 1 && pp >= 1 && PerStage(ops, L, pp, rank, kf, kb) && Counted(ops)
    ensures PerStage(ops + [None], L, pp, rank, kf, kb)
  {
    SnocNone(ops);
  }

  /** Forward step `kf` runs local index `(kf / pp) % L`. */
  lemma PerStageForward(ops: Row, L: nat, pp: nat, rank: nat, kf: nat, kb: nat, s: nat)
    requires L >= 1 && rank < pp && PerStage(ops, L, pp, rank, kf, kb) && Counted(ops)
    requires s % pp == rank && s / pp == (kf / pp) % L
    ensures PerStage(ops + [Some(Action(Forward, Count(ops, Forward, s), s))], L, pp, rank, kf + 1, kb)
  {
    var ops' := ops + [Some(Action(Forward, Count(ops, Forward, s), s))];
    SnocSome(ops, Action(Forward, Count(ops, Forward, s), s));
    forall j | 0 <= j < L
      ensures Count(ops', Forward, StageOf(pp, rank, j)) == Hits(L, pp, j, kf + 1)
      ensures Count(ops', Backward, StageOf(pp, rank, j)) == Hits(L, pp, L - 1 - j, kb)
    {
      var t := StageOf(pp, rank, j);
      assert t == s <==> j == (kf / pp) % L by {
        StageOfSlot(pp, rank, j, s);
      }
      assert Count(ops', Forward, t) == Count(ops, Forward, t) + (if t == s then 1 else 0);
      assert Count(ops', Backward, t) == Count(ops, Backward, t);
    }
  }

  /** Backward step `kb` runs local index `L - 1 - (kb / pp) % L`. */
  lemma PerStageBackward(ops: Row, L: nat, pp: nat, rank: nat, kf: nat, kb: nat, s: nat)
    requires L >= 1 && rank < pp && PerStage(ops, L, pp, rank, kf, kb) && Counted(ops)
    requires s % pp == rank && s / pp == L - 1 - (kb / pp) % L
    ensures PerStage(ops + [Some(Action(Backward, Count(ops, Backward, s), s))], L, pp, rank, kf, kb + 1)
  {
    var ops' := ops + [Some(Action(Backward, Count(ops, Backward, s), s))];
    SnocSome(ops, Action(Backward, Count(ops, Backward, s), s));
    forall j | 0 <= j < L
      ensures Count(ops', Forward, StageOf(pp, rank, j)) == Hits(L, pp, j, kf)
      ensures Count(ops', Backward, StageOf(pp, rank, j)) == Hits(L, pp, L - 1 - j, kb + 1)
    {
      var t := StageOf(pp, rank, j);
      assert t == s <==> j == L - 1 - (kb / pp) % L by {
        StageOfSlot(pp, rank, j, s);
      }
      assert Count(ops', Backward, t) == Count(ops, Backward, t) + (if t == s then 1 else 0);
      assert Count(ops', Forward, t) == Count(ops, Forward, t);
    }
  }

  /** The stage of local index `j` is the only stage of the rank whose
      quotient by `pp` is `j`. */
  lemma StageOfSlot(pp: nat, rank: nat, j: nat, s: nat)
    requires rank < pp && s % pp == rank
    ensures StageOf(pp, rank, j) == s <==> j == s / pp
  {
    DivModUnique(StageOf(pp, rank, j), pp, j, rank);
    assert s == pp * (s / pp) + s % pp;
  }

  lemma StagesSnoc(ops: Row, o: Option<Action>, L: nat, pp: nat, rank: nat)
    requires StagesOk(ops, L, pp, rank)
    requires o.Some? ==> pp > 0 && o.value.stage % pp == rank && o.value.stage < L * pp
    ensures StagesOk(ops + [o], L, pp, rank)
  {
    var ops' := ops + [o];
    assert forall i :: 0 <= i < |ops| ==> ops'[i] == ops[i];
  }

  /** Slots filled by the first `step` steps of the loop. */
  function Filled(warmup: nat, post0: nat, step: nat): nat
  {
    if step < warmup || (warmup == 0 && step == 0) then step
    else warmup + post0 + 2 * (step - warmup)
  }

  /** `k` idle slots. */
  function Idle(k: nat): (ops: Row)
    ensures |ops| == k && forall i :: 0 <= i < k ==> ops[i] == None
  {
    seq(k, _ => None)
  }

  lemma NoneRow(r: nat)
    ensures Book(Idle(r), map[], map[])
    ensures forall w, p0, fb :: Laid(Idle(r), r, w, p0, fb)
    ensures forall k :: KindCount(Idle(r), k) == 0
    ensures forall L, pp :: StagesOk(Idle(r), L, pp, r)
  {
    var ops: Row := Idle(r);
    NoneCount(r, Forward, 0);
    forall k, t ensures Count(ops, k, t) == 0 {
      NoneCount(r, k, t);
    }
    forall k ensures KindCount(ops, k) == 0 {
      NoneCount(r, k, 0);
    }
  }

  lemma {:induction false} NoneCount(r: nat, k: ComputationType, t: nat)
    ensures Count(Idle(r), k, t) == 0 && KindCount(Idle(r), k) == 0 && Counted(Idle(r))
  {
    if r > 0 {
      assert Idle(r)[..r - 1] == Idle(r - 1);
      NoneCount(r - 1, k, t);
    }
  }

  lemma WarmupLaid(ops: Row, ops': Row, r: nat, c: Counts, post0: nat, step: nat, s: nat)
    requires step < c.warmup && |ops| == r + step
    requires post0 == 0 || post0 == 2
    requires Laid(ops, r, c.warmup, post0, c.fwdBwd)
    requires |ops'| == |ops| + 1 + (if step == c.warmup - 1 then post0 else 0)
    requires ops'[..|ops| + 1] == ops + [Some(Action(Forward, Count(ops, Forward, s), s))]
    requires forall i :: |ops| + 1 <= i < |ops'| ==> ops'[i] == None
    ensures Laid(ops', r, c.warmup, post0, c.fwdBwd)
  {
    forall p | 0 <= p < |ops'|
      ensures KindOf(ops'[p]) == SlotKind(r, c.warmup, post0, c.fwdBwd, p)
    {
      if p < |ops| {
        assert ops'[p] == ops'[..|ops| + 1][p];
      } else if p == |ops| {
        assert ops'[p] == ops'[..|ops| + 1][p];
      }
    }
  }

  lemma PairLaid(ops: Row, ops': Row, r: nat, c: Counts, post0: nat, step: nat, first: ComputationType)
    requires c.warmup <= step < c.warmup + c.fwdBwd + c.warmup
    requires first == Forward <==> step < c.warmup + c.fwdBwd
    requires |ops| == r + c.warmup + post0 + 2 * (step - c.warmup)
    requires Laid(ops, r, c.warmup, post0, c.fwdBwd)
    requires |ops'| == |ops| + 2 && ops'[..|ops|] == ops
    requires KindOf(ops'[|ops|]) == (if first == Forward then Some(Forward) else None)
    requires KindOf(ops'[|ops| + 1]) == Some(Backward)
    ensures Laid(ops', r, c.warmup, post0, c.fwdBwd)
  {
    forall p | 0 <= p < |ops'|
      ensures KindOf(ops'[p]) == SlotKind(r, c.warmup, post0, c.fwdBwd, p)
    {
      if p < |ops| {
        assert ops'[p] == ops'[..|ops|][p];
      } else {
        var q := p - (r + c.warmup + post0);
        assert q == 2 * (step - c.warmup) + (p - |ops|);
      }
    }
  }

  /** An idle slot after the cooldown stays within the layout. */
  lemma LaidIdle(ops: Row, r: nat, warmup: nat, post0: nat, fwdBwd: nat)
    requires Laid(ops, r, warmup, post0, fwdBwd)
    requires |ops| >= r + warmup + post0 + 2 * fwdBwd + 2 * warmup
    ensures Laid(ops + [None], r, warmup, post0, fwdBwd)
  {
    var ops' := ops + [None];
    assert forall p :: 0 <= p < |ops| ==> ops'[p] == ops[p];
  }

  // ---------------------------------------------------------------------------
  // Every local stage gets `n` forwards and `n` backwards
  // ---------------------------------------------------------------------------

  /** Steps among the first `k` whose block of `pp` steps falls on local
      index `j` of the cycle of `L` local stages. */
  function Hits(L: nat, pp: nat, j: nat, k: nat): nat
    requires L >= 1 && pp >= 1
  {
    if k == 0 then 0 else Hits(L, pp, j, k - 1) + (if ((k - 1) / pp) % L == j then 1 else 0)
  }

  /** Blocks among the first `b` that fall on local index `j`. */
  function BlockHits(L: nat, j: nat, b: nat): nat
    requires L >= 1
  {
    if b == 0 then 0 else BlockHits(L, j, b - 1) + (if (b - 1) % L == j then 1 else 0)
  }

  /** Inside block `b` (starting at step `base`) every step hits the
      block's local index. */
  lemma {:induction false} WithinBlock(L: nat, pp: nat, j: nat, b: nat, base: nat, o: nat)
    requires L >= 1 && pp >= 1 && o <= pp && base == b * pp
    ensures Hits(L, pp, j, base + o) == Hits(L, pp, j, base) + (if b % L == j then o else 0)
  {
    if o > 0 {
      WithinBlock(L, pp, j, b, base, o - 1);
      var x := base + o - 1;
      assert x == pp * b + (o - 1);
      DivModUnique(x, pp, b, o - 1);
      assert Hits(L, pp, j, x + 1) == Hits(L, pp, j, x) + (if (x / pp) % L == j then 1 else 0);
    }
  }

  lemma {:induction false} HitsByBlocks(L: nat, pp: nat, j: nat, b: nat)
    requires L >= 1 && pp >= 1
    ensures Hits(L, pp, j, b * pp) == pp * BlockHits(L, j, b)
  {
    if b > 0 {
      var base := (b - 1) * pp;
      var h := BlockHits(L, j, b - 1);
      var hit := (b - 1) % L == j;
      calc {
        Hits(L, pp, j, b * pp);
        { MulDistrib(b - 1, 1, pp); assert base + pp == b * pp; }
        Hits(L, pp, j, base + pp);
        { WithinBlock(L, pp, j, b - 1, base, pp); }
        Hits(L, pp, j, base) + (if hit then pp else 0);
        { HitsByBlocks(L, pp, j, b - 1); }
        pp * h + (if hit then pp else 0);
        { MulDistrib(h, 1, pp); assert pp * (h + 1) == pp * h + pp; }
        pp * (h + (if hit then 1 else 0));
      }
    }
  }

  /** Inside cycle `m` (starting at block `base`) the blocks run through
      local indices `0 .. L-1` once. */
  lemma {:induction false} WithinCycle(L: nat, j: nat, m: nat, base: nat, x: nat)
    requires L >= 1 && x <= L && base == m * L
    ensures BlockHits(L, j, base + x) == BlockHits(L, j, base) + (if j < x then 1 else 0)
  {
    if x > 0 {
      WithinCycle(L, j, m, base, x - 1);
      var y := base + x - 1;
      assert y == L * m + (x - 1);
      DivModUnique(y, L, m, x - 1);
      assert BlockHits(L, j, y + 1) == BlockHits(L, j, y) + (if y % L == j then 1 else 0);
    }
  }

  lemma {:induction false} HitsByCycles(L: nat, j: nat, m: nat)
    requires L >= 1 && j < L
    ensures BlockHits(L, j, m * L) == m
  {
    if m > 0 {
      var base := (m - 1) * L;
      HitsByCycles(L, j, m - 1);
      WithinCycle(L, j, m - 1, base, L);
      assert base + L == m * L by {
        MulDistrib(m - 1, 1, L);
      }
    }
  }

  /** With `n` a multiple of `pp`, the `L * n` steps visit every local index
      exactly `n` times. */
  lemma EveryLocalIndex(L: nat, pp: nat, n: nat, j: nat)
    requires L >= 1 && pp >= 1 && n % pp == 0 && j < L
    ensures Hits(L, pp, j, L * n) == n
  {
    var m := n / pp;
    calc {
      Hits(L, pp, j, L * n);
      { assert n == pp * m; assert L * (pp * m) == (m * L) * pp; }
      Hits(L, pp, j, (m * L) * pp);
      { HitsByBlocks(L, pp, j, m * L); }
      pp * BlockHits(L, j, m * L);
      { HitsByCycles(L, j, m); }
      pp * m;
    }
  }
}
