/** The configuration helpers of the flex-attention lowering: where the
    placeholders of a score-modification subgraph take their buffers from,
    the default and autotuning block configurations, and the launch grids.
    IR buffers are opaque values; the device capability and the dtype are
    parameters. */
module FlexAttention {
  import opened Wrappers
  import opened Arith

  // ---------------------------------------------------------------------------
  // Placeholders of a subgraph
  // ---------------------------------------------------------------------------

  /** The subgraph being lowered: the forward score modification, its
      recomputation inside the backward kernel, or the joint backward. */
  datatype SubgraphType = Fwd | JointFwd | JointBwd

  /** How many scalar placeholders the lowering creates for the subgraph:
      `score, b, h, m, n`, and `out` as well for the joint backward. */
  function ScalarPlaceholders(t: SubgraphType): nat
  {
    if t == JointBwd then 6 else 5
  }

  /** Where `other_buffers` starts in the lowering's arguments: after
      `query, key, value, score_mod` in the forward, after
      `q, k, v, out, lse, grad_out, fw_graph, joint_graph` in the
      backward. */
  function OtherBuffersStart(t: SubgraphType): nat
  {
    if t == Fwd then 4 else 8
  }

  /** `index_to_other_buffers`: placeholder `cnt` past the scalar ones is
      other buffer `cnt - ScalarPlaceholders(t)`. */
  function IndexToOtherBuffers(cnt: int, t: SubgraphType): (r: int)
    ensures r == OtherBuffersStart(t) + (cnt - ScalarPlaceholders(t))
  {
    match t
    case Fwd => cnt - 1
    case JointFwd => cnt + 3
    case JointBwd => cnt + 2
  }

  /** An IR buffer: one passed to the lowering (by handle), or the lowering
      of a call on operands. */
  datatype Buf = Input(handle: nat) | Lowered(target: string, operands: seq<Operand>)

  /** A call operand after substitution: a buffer, or the original
      argument when it is not a node with a buffer. */
  datatype Operand = BufOperand(buf: Buf) | NodeOperand(index: nat) | ConstOperand(c: int)

  /** An argument of a call node: a node (by position) or a constant. */
  datatype CallArg = ArgNode(index: nat) | ArgConst(c: int)

  /** The first argument of an output node. */
  datatype OutValue = OutNode(index: nat) | OutTuple(items: seq<OutValue>) | OutConst

  datatype GraphNode =
    | Placeholder
    | CallFunction(target: string, args: seq<CallArg>)
    | OutputNode(value: OutValue)
    | OtherNode                          // an op the loop passes over

  datatype FlexError =
    | IndexOutOfRange                    // `args[i]` or `x[0]` out of range
    | NotSubscriptable                   // `node.args[0][0]` on a non-tuple
    | MissingKey                         // `env[output_node]` for a node without a buffer
    | NoOutputNode                       // "TemplatedAttention was passed a subgraph with no output node!"

  /** Python's `xs[i]`, negative indices counting from the end. */
  function PyIndex<T>(xs: seq<T>, i: int): Result<T, FlexError>
  {
    if 0 <= i < |xs| then Success(xs[i])
    else if -|xs| <= i < 0 then Success(xs[|xs| + i])
    else Failure(IndexOutOfRange)
  }

  /** The buffer of the `cnt`-th placeholder. */
  function PlaceholderBuffer(args: seq<Buf>, inps: seq<Buf>, cnt: nat, t: SubgraphType): Result<Buf, FlexError>
  {
    if cnt >= |inps| then PyIndex(args, IndexToOtherBuffers(cnt, t)) else Success(inps[cnt])
  }

  /** With the lowering's own scalar placeholders and argument layout, the
      lifted placeholders take the other buffers in order, and a lifted
      placeholder with no buffer left is an index error. */
  lemma LiftedInOrder(fixed: seq<Buf>, others: seq<Buf>, inps: seq<Buf>, t: SubgraphType, j: nat)
    requires |fixed| == OtherBuffersStart(t) && |inps| == ScalarPlaceholders(t)
    ensures j < |others| ==> PlaceholderBuffer(fixed + others, inps, |inps| + j, t) == Success(others[j])
    ensures j >= |others| ==> PlaceholderBuffer(fixed + others, inps, |inps| + j, t) == Failure(IndexOutOfRange)
  {
    assert IndexToOtherBuffers(|inps| + j, t) == |fixed| + j;
  }

  /** One argument after `tree_map`: a node with a buffer becomes that
      buffer, anything else stays as it is. */
  function SubstituteArg(env: map<nat, Buf>, a: CallArg): Operand
  {
    match a
    case ArgNode(k) => if k in env then BufOperand(env[k]) else NodeOperand(k)
    case ArgConst(c) => ConstOperand(c)
  }

  function Substitute(env: map<nat, Buf>, args: seq<CallArg>): (r: seq<Operand>)
    ensures |r| == |args|
    ensures forall i :: 0 <= i < |args| ==> r[i] == SubstituteArg(env, args[i])
  {
    seq(|args|, i requires 0 <= i < |args| => SubstituteArg(env, args[i]))
  }

  /** The loop's state: buffers of the nodes seen so far, placeholders
      counted. */
  datatype Walk = Walk(env: map<nat, Buf>, cnt: nat)

  function Count(nodes: seq<GraphNode>): nat
  {
    if nodes == [] then 0
    else Count(nodes[..|nodes| - 1]) + if nodes[|nodes| - 1].Placeholder? then 1 else 0
  }

  /** The loop over nodes `0 .. i-1` (none of which is an output). */
  function Walked(nodes: seq<GraphNode>, args: seq<Buf>, inps: seq<Buf>, t: SubgraphType, i: nat): (r: Result<Walk, FlexError>)
    requires i <= |nodes|
    ensures r.Success? ==> r.value.cnt == Count(nodes[..i]) && (forall k :: k in r.value.env ==> k < i)
  {
    if i == 0 then Success(Walk(map[], 0))
    else
      var w :- Walked(nodes, args, inps, t, i - 1);
      assert nodes[..i][..i - 1] == nodes[..i - 1];
      match nodes[i - 1]
      case Placeholder =>
        var b :- PlaceholderBuffer(args, inps, w.cnt, t);
        Success(Walk(w.env[i - 1 := b], w.cnt + 1))
      case CallFunction(target, cargs) => Success(Walk(w.env[i - 1 := Lowered(target, Substitute(w.env, cargs))], w.cnt))
      case OutputNode(_) => Success(w)
      case OtherNode => Success(w)
  }

  /** Every placeholder seen takes the buffer of its rank among the
      placeholders: `placeholder_inps[k]` for the first ones, a lifted
      argument after them. */
  lemma {:induction false} WalkedPlaceholders(nodes: seq<GraphNode>, args: seq<Buf>, inps: seq<Buf>, t: SubgraphType, i: nat)
    requires i <= |nodes| && Walked(nodes, args, inps, t, i).Success?
    ensures forall j :: 0 <= j < i && nodes[j].Placeholder? ==>
              j in Walked(nodes, args, inps, t, i).value.env &&
              PlaceholderBuffer(args, inps, Count(nodes[..j]), t) == Success(Walked(nodes, args, inps, t, i).value.env[j])
  {
    if i > 0 {
      WalkedPlaceholders(nodes, args, inps, t, i - 1);
    }
  }

  /** The index of the first output node. */
  function FirstOutput(nodes: seq<GraphNode>): (r: Option<nat>)
    ensures r.Some? ==> r.value < |nodes| && nodes[r.value].OutputNode? &&
                        forall j :: 0 <= j < r.value ==> !nodes[j].OutputNode?
    ensures r.None? ==> forall j :: 0 <= j < |nodes| ==> !nodes[j].OutputNode?
  {
    if nodes == [] then None
    else if nodes[0].OutputNode? then Some(0)
    else
      var r := FirstOutput(nodes[1..]);
      if r.Some? then Some(r.value + 1) else None
  }

  /** The buffer the output node names: its first argument, or the first
      element of that for the joint backward. */
  function OutputBuffer(env: map<nat, Buf>, v: OutValue, t: SubgraphType): Result<Buf, FlexError>
  {
    var target :-
      if t != JointBwd then Success(v)
      else if !v.OutTuple? then Failure(NotSubscriptable)
      else if |v.items| == 0 then Failure(IndexOutOfRange)
      else Success(v.items[0]);
    if target.OutNode? && target.index in env then Success(env[target.index]) else Failure(MissingKey)
  }

  /** `build_subgraph_buffer`, up to wrapping the output buffer's data in a
      computed buffer. */
  function Build(nodes: seq<GraphNode>, args: seq<Buf>, inps: seq<Buf>, t: SubgraphType): Result<Buf, FlexError>
  {
    match FirstOutput(nodes)
    case None =>
      var _ :- Walked(nodes, args, inps, t, |nodes|);
      Failure(NoOutputNode)
    case Some(o) =>
      var w :- Walked(nodes, args, inps, t, o);
      OutputBuffer(w.env, nodes[o].value, t)
  }

  /** A failed step fails the rest of the walk with the same error. */
  lemma {:induction false} WalkedStuck(nodes: seq<GraphNode>, args: seq<Buf>, inps: seq<Buf>, t: SubgraphType, i: nat, k: nat)
    requires i <= k <= |nodes| && Walked(nodes, args, inps, t, i).Failure?
    ensures Walked(nodes, args, inps, t, k) == Walked(nodes, args, inps, t, i)
    decreases k - i
  {
    if i < k {
      WalkedStuck(nodes, args, inps, t, i, k - 1);
    }
  }

  /** The loop of `build_subgraph_buffer`, with the `cnt` counter and the
      `env` dictionary. */
  method BuildSubgraphBuffer(nodes: seq<GraphNode>, args: seq<Buf>, inps: seq<Buf>, t: SubgraphType)
    returns (r: Result<Buf, FlexError>)
    ensures r == Build(nodes, args, inps, t)
  {
    var cnt := 0;
    var env: map<nat, Buf> := map[];
    var i := 0;
    while i < |nodes|
      invariant 0 <= i <= |nodes|
      invariant Walked(nodes, args, inps, t, i) == Success(Walk(env, cnt))
      invariant forall j :: 0 <= j < i ==> !nodes[j].OutputNode?
    {
      match nodes[i] {
        case Placeholder =>
          var isLiftedInput := cnt >= |inps|;
          var liftedInputIndex := IndexToOtherBuffers(cnt, t);
          if isLiftedInput {
            var b := PyIndex(args, liftedInputIndex);
            if b.Failure? {
              WalkedStuck(nodes, args, inps, t, i + 1, if FirstOutput(nodes).Some? then FirstOutput(nodes).value else |nodes|);
              return Failure(b.error);
            }
            env := env[i := b.value];
          } else {
            env := env[i := inps[cnt]];
          }
          cnt := cnt + 1;
        case CallFunction(target, cargs) =>
          env := env[i := Lowered(target, Substitute(env, cargs))];
        case OutputNode(v) =>
          assert FirstOutput(nodes) == Some(i);
          var outputNode: OutValue;
          if t == Fwd || t == JointFwd {
            outputNode := v;
          } else {
            if !v.OutTuple? {
              return Failure(NotSubscriptable);
            }
            if |v.items| == 0 {
              return Failure(IndexOutOfRange);
            }
            outputNode := v.items[0];
          }
          if !(outputNode.OutNode? && outputNode.index in env) {
            return Failure(MissingKey);
          }
          return Success(env[outputNode.index]);
        case OtherNode =>
      }
      i := i + 1;
    }
    assert FirstOutput(nodes).None?;
    return Failure(NoOutputNode);
  }

  // ---------------------------------------------------------------------------
  // Block configurations
  // ---------------------------------------------------------------------------

  /** Element types; the tables only list float32 and bfloat16. */
  datatype DType = Float32 | BFloat16 | Float16

  /** A CUDA compute capability, compared as a (major, minor) tuple. */
  datatype Capability = Capability(major: nat, minor: nat)

  predicate AtLeast(c: Capability, major: nat, minor: nat)
  {
    c.major > major || (c.major == major && c.minor >= minor)
  }

  /** `(BLOCK_M, BLOCK_N, num_warps, num_stages)`. */
  datatype Config = Config(blockM: nat, blockN: nat, numWarps: nat, numStages: nat)

  /** The tuned H100 forward configurations, by (dtype, head_dim). */
  function H100Config(dtype: DType, headDim: int): Option<Config>
  {
    if dtype == Float32 then
      if headDim == 64 then Some(Config(128, 32, 4, 3))
      else if headDim == 128 then Some(Config(32, 64, 4, 3))
      else if headDim == 256 then Some(Config(32, 32, 4, 3))
      else None
    else if dtype == BFloat16 then
      if headDim == 64 then Some(Config(128, 64, 4, 3))
      else if headDim == 128 then Some(Config(64, 32, 4, 3))
      else if headDim == 256 then Some(Config(64, 32, 4, 3))
      else None
    else None
  }

  /** The tuned A100 forward configurations, by (dtype, head_dim). */
  function A100Config(dtype: DType, headDim: int): Option<Config>
  {
    if dtype == Float32 then
      if headDim == 64 then Some(Config(128, 32, 4, 3))
      else if headDim == 128 then Some(Config(128, 32, 4, 3))
      else if headDim == 256 then Some(Config(64, 16, 4, 3))
      else None
    else if dtype == BFloat16 then
      if headDim == 64 then Some(Config(128, 64, 4, 3))
      else if headDim == 128 then Some(Config(128, 32, 4, 3))
      else if headDim == 256 then Some(Config(32, 64, 4, 3))
      else None
    else None
  }

  /** `dict.get(key, default)`. */
  function GetOr(o: Option<Config>, default: Config): Config
  {
    if o.Some? then o.value else default
  }

  /** `_get_default_config_fwd`. */
  function DefaultConfigFwd(dtype: DType, headDim: int, cap: Capability): (c: Config)
    ensures c.numWarps == 4 && c.numStages == 3
    ensures headDim > 256 || !AtLeast(cap, 8, 0) ==>
              c == if dtype == Float32 then Config(32, 16, 4, 3) else Config(64, 32, 4, 3)
    ensures headDim <= 256 && AtLeast(cap, 9, 0) ==>
              c == GetOr(H100Config(dtype, headDim), if dtype == Float32 then Config(64, 64, 4, 3) else Config(128, 64, 4, 3))
    ensures headDim <= 256 && AtLeast(cap, 8, 0) && !AtLeast(cap, 9, 0) ==>
              c == GetOr(A100Config(dtype, headDim), if dtype == Float32 then Config(64, 64, 4, 3) else Config(128, 64, 4, 3))
  {
    if headDim <= 256 && AtLeast(cap, 9, 0) then
      var default := if dtype == Float32 then Config(64, 64, 4, 3) else Config(128, 64, 4, 3);
      GetOr(H100Config(dtype, headDim), default)
    else if headDim <= 256 && AtLeast(cap, 8, 0) then
      var default := if dtype == Float32 then Config(64, 64, 4, 3) else Config(128, 64, 4, 3);
      GetOr(A100Config(dtype, headDim), default)
    else if dtype == Float32 then Config(32, 16, 4, 3)
    else Config(64, 32, 4, 3)
  }

  /** `_get_default_config_bwd`: only the H100 has its own choice. */
  function DefaultConfigBwd(dtype: DType, headDim: int, cap: Capability): (c: Config)
    ensures headDim <= 256 && AtLeast(cap, 9, 0) ==>
              c == if dtype == Float32 then Config(64, 64, 4, 1) else Config(128, 128, 4, 3)
    ensures !(headDim <= 256 && AtLeast(cap, 9, 0)) ==> c == Config(32, 32, 4, 1)
  {
    if headDim <= 256 && AtLeast(cap, 9, 0) then
      if dtype == Float32 then Config(64, 64, 4, 1) else Config(128, 128, 4, 3)
    else if headDim <= 256 && AtLeast(cap, 8, 0) then Config(32, 32, 4, 1)
    else Config(32, 32, 4, 1)
  }

  const ForwardAutotune: seq<Config> := [
    Config(128, 64, 4, 3), Config(128, 128, 4, 3), Config(128, 128, 8, 2),
    Config(64, 128, 4, 3), Config(64, 64, 4, 3)]

  const BackwardAutotune: seq<Config> := [
    Config(128, 128, 4, 3), Config(128, 128, 8, 1), Config(64, 64, 4, 3), Config(64, 64, 8, 1)]

  /** The forward configurations tried: the default first, then the
      autotuning ones when `max_autotune` is set. */
  function ForwardConfigs(dtype: DType, headDim: int, cap: Capability, maxAutotune: bool): (r: seq<Config>)
    ensures |r| == if maxAutotune then 6 else 1
    ensures r[0] == DefaultConfigFwd(dtype, headDim, cap)
    ensures maxAutotune ==> r[1..] == ForwardAutotune
  {
    [DefaultConfigFwd(dtype, headDim, cap)] + if maxAutotune then ForwardAutotune else []
  }

  /** The backward configurations tried. */
  function BackwardConfigs(dtype: DType, headDim: int, cap: Capability, maxAutotune: bool): (r: seq<Config>)
    ensures |r| == if maxAutotune then 5 else 1
    ensures r[0] == DefaultConfigBwd(dtype, headDim, cap)
    ensures maxAutotune ==> r[1..] == BackwardAutotune
  {
    [DefaultConfigBwd(dtype, headDim, cap)] + if maxAutotune then BackwardAutotune else []
  }

  predicate PowerOfTwo(n: nat)
  {
    n == 1 || (n > 1 && n % 2 == 0 && PowerOfTwo(n / 2))
  }

  /** What a Triton block configuration needs: power-of-two block sizes
      (`tl.arange` ranges), four or eight warps, at least one stage. */
  predicate Launchable(c: Config)
  {
    PowerOfTwo(c.blockM) && PowerOfTwo(c.blockN) && c.numWarps in {4, 8} && c.numStages >= 1
  }

  lemma SmallPowers()
    ensures PowerOfTwo(16) && PowerOfTwo(32) && PowerOfTwo(64) && PowerOfTwo(128)
  {
    assert PowerOfTwo(1) && PowerOfTwo(2) && PowerOfTwo(4) && PowerOfTwo(8);
  }

  /** Every configuration either lowering may try is launchable, whatever the
      device, dtype and head dimension. This is a sanity check of the literal
      tables rather than a property the lowering states. */
  lemma ConfigsLaunchable(dtype: DType, headDim: int, cap: Capability, maxAutotune: bool)
    ensures forall c :: c in ForwardConfigs(dtype, headDim, cap, maxAutotune) ==> Launchable(c)
    ensures forall c :: c in BackwardConfigs(dtype, headDim, cap, maxAutotune) ==> Launchable(c)
  {
    SmallPowers();
  }

  // ---------------------------------------------------------------------------
  // Launch grids
  // ---------------------------------------------------------------------------

  /** `triton.cdiv` on non-negative operands. */
  function CeilDiv(a: nat, b: nat): nat
    requires b > 0
  {
    (a + b - 1) / b
  }

  /** `cdiv(a, b)` is the fewest blocks of `b` that cover `a`. */
  lemma CeilDivCovers(a: nat, b: nat)
    requires b > 0
    ensures CeilDiv(a, b) * b >= a
    ensures CeilDiv(a, b) == 0 || (CeilDiv(a, b) - 1) * b < a
  {
    var q, r := (a + b - 1) / b, (a + b - 1) % b;
    assert a + b - 1 == b * q + r;
    assert q * b == b * q;
    if q > 0 {
      assert (q - 1) * b == q * b - b;
    }
  }

  /** `flex_attention_grid`: one program per block of `BLOCK_M` queries per
      batch and head. */
  function FlexAttentionGrid(batchSize: nat, numHeads: nat, numQueries: nat, dModel: nat, blockM: nat): (g: (nat, nat, nat))
    requires blockM > 0
    ensures g.0 * blockM >= numQueries && (g.0 == 0 || (g.0 - 1) * blockM < numQueries)
    ensures g.1 == batchSize * numHeads && g.2 == 1
  {
    CeilDivCovers(numQueries, blockM);
    (CeilDiv(numQueries, blockM), batchSize * numHeads, 1)
  }

  /** `flex_attention_backward_grid`: one program per batch and head. */
  function FlexAttentionBackwardGrid(batchSize: nat, numHeads: nat, numKeyValue: nat, dModel: nat): (g: (nat, nat, nat))
    ensures g.0 == batchSize * numHeads && g.1 == 1 && g.2 == 1
  {
    (batchSize * numHeads, 1, 1)
  }

  /** The per-configuration template parameters of the backward kernel. */
  datatype BackwardParams = BackwardParams(config: Config, blockDModel: nat, numQBlocks: nat)

  /** The backward lowering's loop over its configurations: each gets
      `NUM_Q_BLOCKS`, the number of `BLOCK_M` blocks covering the
      `numQueries` query rows. */
  method BackwardChoices(configs: seq<Config>, numQueries: nat, headDim: nat) returns (params: seq<BackwardParams>)
    requires forall c :: c in configs ==> c.blockM > 0
    ensures |params| == |configs|
    ensures forall i :: 0 <= i < |configs| ==>
              params[i].config == configs[i] && params[i].blockDModel == headDim &&
              params[i].numQBlocks * configs[i].blockM >= numQueries &&
              (params[i].numQBlocks == 0 || (params[i].numQBlocks - 1) * configs[i].blockM < numQueries)
  {
    params := [];
    for i := 0 to |configs|
      invariant |params| == i
      invariant forall j :: 0 <= j < i ==>
                  params[j].config == configs[j] && params[j].blockDModel == headDim &&
                  params[j].numQBlocks * configs[j].blockM >= numQueries &&
                  (params[j].numQBlocks == 0 || (params[j].numQBlocks - 1) * configs[j].blockM < numQueries)
    {
      var c := configs[i];
      assert c in configs;
      CeilDivCovers(numQueries, c.blockM);
      params := params + [BackwardParams(c, headDim, CeilDiv(numQueries, c.blockM))];
    }
  }
}
