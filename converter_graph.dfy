/** The symbol tables of the TorchScript-to-FX graph converter, as values.
    A TorchScript node is a record (kind, input names, output name, the
    attributes the converter reads); the FX graph under construction is a list
    of nodes, and an FX value refers to a node by its position in that list.
    `Effect` says what converting one node does to the converter's tables;
    module `Converter` runs the same steps on a mutable converter object. */
module ConverterGraph {
  import opened Wrappers
  import Decimal

  // ---------------------------------------------------------------------------
  // Names
  // ---------------------------------------------------------------------------

  /** `name.replace(".", "_")`, character by character. */
  function NormalizeName(name: string): (r: string)
    ensures |r| == |name|
    ensures forall i :: 0 <= i < |name| ==> r[i] == if name[i] == '.' then '_' else name[i]
    decreases |name|
  {
    if name == [] then []
    else NormalizeName(name[..|name| - 1]) + [if name[|name| - 1] == '.' then '_' else name[|name| - 1]]
  }

  /** A normalized name has no '.'. */
  lemma NormalizeNoDot(name: string)
    ensures '.' !in NormalizeName(name)
  {
    var r := NormalizeName(name);
    forall i | 0 <= i < |r| ensures r[i] != '.' {
    }
  }

  /** Normalizing twice is normalizing once. */
  lemma NormalizeIdempotent(name: string)
    ensures NormalizeName(NormalizeName(name)) == NormalizeName(name)
  {
    NormalizeNoDot(name);
    NormalizeDotless(NormalizeName(name));
  }

  /** A name without '.' is its own normal form, and only such a name is. */
  lemma NormalizeDotless(name: string)
    ensures NormalizeName(name) == name <==> '.' !in name
  {
    if '.' in name {
      var i :| 0 <= i < |name| && name[i] == '.';
      assert NormalizeName(name)[i] == '_';
    } else {
      assert forall i :: 0 <= i < |name| ==> NormalizeName(name)[i] == name[i];
    }
  }

  /** `f"subgraph_{k}"`. */
  function SubgraphName(k: nat): string
  {
    "subgraph_" + Decimal.NatToString(k)
  }

  lemma SubgraphNameInjective(a: nat, b: nat)
    requires SubgraphName(a) == SubgraphName(b)
    ensures a == b
  {
    assert SubgraphName(a)[9..] == Decimal.NatToString(a);
    assert SubgraphName(b)[9..] == Decimal.NatToString(b);
    Decimal.NatToStringInjective(a, b);
  }

  // ---------------------------------------------------------------------------
  // The TorchScript side
  // ---------------------------------------------------------------------------

  /** An opaque tensor: how many elements it has and what `.item()` gives
      when it has exactly one. */
  datatype Tensor = Tensor(handle: nat, numel: nat, item: Value)

  /** A converted sub-module (a `GraphModule`), by handle. */
  type Module = nat

  /** The `value` attribute of a `prim::Constant`, by attribute kind
      ("i", "f", "s", "t", "ival"); `OtherAttr` stands for every other
      kind ("is", "ss", "g", ...). */
  datatype ConstAttr =
    | NoValue
    | IntAttr(i: int)
    | FloatAttr(f: nat)
    | StrAttr(s: string)
    | TensorAttr(t: Tensor)
    | IValAttr(v: nat)
    | OtherAttr(kind: string)

  /** One argument of an operator schema. */
  datatype Arg = Arg(name: string, kwargOnly: bool)

  /** A parsed operator schema: `ns::op.overload` and its arguments. */
  datatype Schema = Schema(op: string, overload: string, arguments: seq<Arg>)

  /** A block of a `prim::If`: the sub-module it converts to, and the
      debug names read by its nodes, in order. */
  datatype Block = Block(subgraph: Module, inputs: seq<string>)

  /** A TorchScript node. `schema` is `None` when the operator has no
      overload under `torch.ops.aten`. */
  datatype TsNode = TsNode(
    kind: string,
    inputs: seq<string>,
    output: string,
    value: ConstAttr,
    attrName: string,
    schema: Option<Schema>,
    blocks: seq<Block>)

  // ---------------------------------------------------------------------------
  // The FX side and the converter's tables
  // ---------------------------------------------------------------------------

  /** An FX value: a node of the graph under construction (by position), a
      list or tuple of values, or a Python constant. */
  datatype Value =
    | NodeRef(index: nat)
    | ListOf(items: seq<Value>)
    | IntValue(i: int)
    | FloatValue(f: nat)
    | StrValue(s: string)
    | IValue(handle: nat)
    | NoneValue

  datatype FxNode =
    | Placeholder(name: string)
    | Call(target: string, args: seq<Value>, kwargs: map<string, Value>)
    | GetAttrNode(target: string)
    | Output(result: Value)

  datatype InputKind = Parameter | Buffer | UserInput | ConstantTensor

  /** An input of the graph signature; `persistent` is only set for
      buffers. */
  datatype InputSpec = InputSpec(kind: InputKind, arg: string, target: string, persistent: Option<bool>)

  /** A `USER_OUTPUT` entry of the graph signature. */
  datatype OutputSpec = OutputSpec(arg: string, target: string)

  datatype State = State(
    graph: seq<FxNode>,
    inputSpecs: seq<InputSpec>,
    outputSpecs: seq<OutputSpec>,
    nameToNode: map<string, Value>,
    constantMap: map<string, Value>,
    attributeMap: map<string, string>,
    tensorConstants: map<string, Tensor>,
    subgraphs: map<string, Module>)

  const Empty := State([], [], [], map[], map[], map[], map[], map[])

  datatype ConvertError =
    | ValueNotFound(name: string)        // an attribute path with no node
    | InputNotFound(name: string)        // a name in none of the tables
    | UnsupportedConstantType(kind: string)
    | AttributeNotFound(name: string)    // `GetAttr` on an unknown object
    | UnsupportedNode(kind: string)      // no aten overload in `convert_aten_op`
    | UnknownOperator(kind: string)      // no aten overload elsewhere
    | UnsupportedNodeKind(kind: string)
    | OutputNotFound(name: string)
    | WrongArity(kind: string)           // `node.input()` on a node without exactly one input
    | IndexOutOfRange                    // `args[0]` or `args[1]` of a too short tuple
    | NoNameAttribute                    // `.name` of a value that is not an FX node
    | AssertionFailed                    // an `assert` of `convert_prim_if`

  /** The state after binding `name` to `v` in `name_to_node`. */
  function Bind(s: State, name: string, v: Value): State
  {
    s.(nameToNode := s.nameToNode[name := v])
  }

  /** The state after appending a node that `name` is bound to. */
  function Emit(s: State, node: FxNode, name: string): State
  {
    s.(graph := s.graph + [node], nameToNode := s.nameToNode[name := NodeRef(|s.graph|)])
  }

  // ---------------------------------------------------------------------------
  // Subgraphs
  // ---------------------------------------------------------------------------

  function SubgraphNames(k: nat): set<string>
  {
    set i | 0 <= i < k :: SubgraphName(i)
  }

  /** The subgraphs are exactly `subgraph_0 .. subgraph_{k-1}`. */
  predicate SubgraphsNamed(m: map<string, Module>)
  {
    m.Keys == SubgraphNames(|m|)
  }

  /** `add_subgraph` (under the name `SubgraphName(|s.subgraphs|)`). */
  function AddSubgraph(s: State, m: Module): State
  {
    s.(subgraphs := s.subgraphs[SubgraphName(|s.subgraphs|) := m])
  }

  /** With subgraphs named by count, the next name is fresh: the table grows
      by exactly one entry and stays named by count, so all names handed out
      are pairwise distinct. */
  lemma AddSubgraphFresh(s: State, m: Module)
    requires SubgraphsNamed(s.subgraphs)
    ensures SubgraphName(|s.subgraphs|) !in s.subgraphs
    ensures |AddSubgraph(s, m).subgraphs| == |s.subgraphs| + 1
    ensures SubgraphsNamed(AddSubgraph(s, m).subgraphs)
    ensures AddSubgraph(s, m).subgraphs[SubgraphName(|s.subgraphs|)] == m
  {
    var k := |s.subgraphs|;
    NextSubgraphFresh(s.subgraphs);
    SubgraphNamesSnoc(k);
    var m' := s.subgraphs[SubgraphName(k) := m];
    assert m'.Keys == s.subgraphs.Keys + {SubgraphName(k)};
  }

  /** With `k` subgraphs named by count, `subgraph_k` is not among them. */
  lemma NextSubgraphFresh(m: map<string, Module>)
    requires SubgraphsNamed(m)
    ensures SubgraphName(|m|) !in m
  {
    if SubgraphName(|m|) in m {
      var i :| 0 <= i < |m| && SubgraphName(i) == SubgraphName(|m|);
      SubgraphNameInjective(i, |m|);
    }
  }

  lemma SubgraphNamesSnoc(k: nat)
    ensures SubgraphNames(k + 1) == SubgraphNames(k) + {SubgraphName(k)}
  {
  }

  // ---------------------------------------------------------------------------
  // Value lookup
  // ---------------------------------------------------------------------------

  /** `get_fx_value`: `name_to_node` first; then `attribute_map`, whose
      path must name a node; then `constant_map`; otherwise an error. */
  function Lookup(s: State, name: string): (r: Result<Value, ConvertError>)
    ensures name in s.nameToNode ==> r == Success(s.nameToNode[name])
    ensures name !in s.nameToNode && name in s.attributeMap && s.attributeMap[name] in s.nameToNode ==>
              r == Success(s.nameToNode[s.attributeMap[name]])
    ensures name !in s.nameToNode && name !in s.attributeMap && name in s.constantMap ==>
              r == Success(s.constantMap[name])
    ensures r.Success? ==> r.value in s.nameToNode.Values || r.value in s.constantMap.Values
    ensures (r.Failure? && r.error.ValueNotFound?) <==>
              name !in s.nameToNode && name in s.attributeMap && s.attributeMap[name] !in s.nameToNode
    ensures r.Failure? ==> r.error == if name in s.attributeMap then ValueNotFound(s.attributeMap[name]) else InputNotFound(name)
    ensures r.Failure? <==>
              (name !in s.nameToNode &&
               if name in s.attributeMap then s.attributeMap[name] !in s.nameToNode else name !in s.constantMap)
  {
    if name in s.nameToNode then Success(s.nameToNode[name])
    else if name in s.attributeMap then
      var attr := s.attributeMap[name];
      if attr in s.nameToNode then Success(s.nameToNode[attr]) else Failure(ValueNotFound(attr))
    else if name in s.constantMap then Success(s.constantMap[name])
    else Failure(InputNotFound(name))
  }

  /** The values of `names`, left to right, stopping at the first that
      does not resolve. */
  function LookupAll(s: State, names: seq<string>): (r: Result<seq<Value>, ConvertError>)
    ensures r.Success? <==> forall i :: 0 <= i < |names| ==> Lookup(s, names[i]).Success?
    ensures r.Success? ==> |r.value| == |names| && forall i :: 0 <= i < |names| ==> r.value[i] == Lookup(s, names[i]).value
    ensures r.Failure? ==> exists i :: 0 <= i < |names| && Lookup(s, names[i]).Failure? && r.error == Lookup(s, names[i]).error &&
                                       forall j :: 0 <= j < i ==> Lookup(s, names[j]).Success?
    decreases |names|
  {
    if names == [] then Success([])
    else
      var init :- LookupAll(s, names[..|names| - 1]);
      var last :- Lookup(s, names[|names| - 1]);
      Success(init + [last])
  }

  /** Positional and keyword arguments of a call. */
  datatype Invocation = Invocation(args: seq<Value>, kwargs: map<string, Value>)

  function Positional(arguments: seq<Arg>): nat
  {
    if arguments == [] then 0
    else Positional(arguments[..|arguments| - 1]) + if arguments[|arguments| - 1].kwargOnly then 0 else 1
  }

  /** `get_args_kwargs` over the first `k` (input, schema argument)
      pairs: keyword-only arguments go to `kwargs` under their name, the
      others to `args` in order. */
  function ArgsKwargs(s: State, inputs: seq<string>, arguments: seq<Arg>, k: nat): (r: Result<Invocation, ConvertError>)
    requires k <= |inputs| && k <= |arguments|
    ensures r.Success? <==> forall i :: 0 <= i < k ==> Lookup(s, inputs[i]).Success?
    ensures r.Failure? ==> exists i :: 0 <= i < k && Lookup(s, inputs[i]).Failure? && r.error == Lookup(s, inputs[i]).error &&
                                       forall j :: 0 <= j < i ==> Lookup(s, inputs[j]).Success?
    ensures r.Success? ==> |r.value.args| == Positional(arguments[..k])
    ensures r.Success? ==> r.value.kwargs.Keys == set i | 0 <= i < k && arguments[i].kwargOnly :: arguments[i].name
  {
    if k == 0 then Success(Invocation([], map[]))
    else
      var inv :- ArgsKwargs(s, inputs, arguments, k - 1);
      var v :- Lookup(s, inputs[k - 1]);
      assert arguments[..k][..k - 1] == arguments[..k - 1];
      if arguments[k - 1].kwargOnly then Success(inv.(kwargs := inv.kwargs[arguments[k - 1].name := v]))
      else Success(inv.(args := inv.args + [v]))
  }

  /** Once the first `i` inputs resolve and input `i` does not, the bound
      arguments fail with input `i`'s error, however many are bound. */
  lemma FirstFailure(s: State, inputs: seq<string>, arguments: seq<Arg>, i: nat, m: nat)
    requires i < m <= |inputs| && m <= |arguments|
    requires ArgsKwargs(s, inputs, arguments, i).Success? && Lookup(s, inputs[i]).Failure?
    ensures ArgsKwargs(s, inputs, arguments, m) == Failure(Lookup(s, inputs[i]).error)
  {
    var r := ArgsKwargs(s, inputs, arguments, m);
    var j :| 0 <= j < m && Lookup(s, inputs[j]).Failure? && r.error == Lookup(s, inputs[j]).error &&
             forall j' :: 0 <= j' < j ==> Lookup(s, inputs[j']).Success?;
    assert !(j < i) && !(i < j);
  }

  /** The bound arguments of a call: `zip` stops at the shorter of the inputs
      and the schema's arguments. */
  function Invoke(s: State, inputs: seq<string>, arguments: seq<Arg>): Result<Invocation, ConvertError>
  {
    ArgsKwargs(s, inputs, arguments, if |inputs| < |arguments| then |inputs| else |arguments|)
  }

  // ---------------------------------------------------------------------------
  // Graph inputs
  // ---------------------------------------------------------------------------

  /** Parameters are recognised first, then buffers; the rest are user
      inputs. */
  function KindOfInput(name: string, params: set<string>, buffers: set<string>): (k: InputKind)
    ensures k == Parameter <==> name in params
    ensures k == Buffer <==> name !in params && name in buffers
    ensures k == UserInput <==> name !in params && name !in buffers
  {
    if name in params then Parameter else if name in buffers then Buffer else UserInput
  }

  function InputSpecFor(name: string, params: set<string>, buffers: set<string>): InputSpec
  {
    var kind := KindOfInput(name, params, buffers);
    InputSpec(kind, NormalizeName(name), name, if kind == Buffer then Some(true) else None)
  }

  /** `convert_graph_inputs`: one placeholder, one binding and one input
      spec per graph input, in order. */
  function BindInputs(s: State, inputs: seq<string>, params: set<string>, buffers: set<string>): State
    decreases |inputs|
  {
    if inputs == [] then s
    else
      var t := BindInputs(s, inputs[..|inputs| - 1], params, buffers);
      var name := inputs[|inputs| - 1];
      Emit(t, Placeholder(NormalizeName(name)), name).(inputSpecs := t.inputSpecs + [InputSpecFor(name, params, buffers)])
  }

  predicate Distinct(names: seq<string>)
  {
    forall i, j :: 0 <= i < j < |names| ==> names[i] != names[j]
  }

  /** Graph input `i` becomes placeholder `|s.graph| + i`, named by its
      normalized name and described by its spec, and nothing but the
      graph, the input specs and the bindings changes. */
  lemma {:induction false} BindInputsPlaces(s: State, inputs: seq<string>, params: set<string>, buffers: set<string>)
    ensures var t := BindInputs(s, inputs, params, buffers);
      |t.graph| == |s.graph| + |inputs| && t.graph[..|s.graph|] == s.graph &&
      |t.inputSpecs| == |s.inputSpecs| + |inputs| && t.inputSpecs[..|s.inputSpecs|] == s.inputSpecs &&
      t == s.(graph := t.graph, inputSpecs := t.inputSpecs, nameToNode := t.nameToNode)
    ensures var t := BindInputs(s, inputs, params, buffers);
      forall i :: |s.graph| <= i < |t.graph| ==> t.graph[i] == Placeholder(NormalizeName(inputs[i - |s.graph|]))
    ensures var t := BindInputs(s, inputs, params, buffers);
      forall i :: |s.inputSpecs| <= i < |t.inputSpecs| ==> t.inputSpecs[i] == InputSpecFor(inputs[i - |s.inputSpecs|], params, buffers)
    decreases |inputs|
  {
    if inputs != [] {
      var init := inputs[..|inputs| - 1];
      BindInputsPlaces(s, init, params, buffers);
      var t0 := BindInputs(s, init, params, buffers);
      var t := BindInputs(s, inputs, params, buffers);
      assert t.graph == t0.graph + [Placeholder(NormalizeName(inputs[|inputs| - 1]))];
      assert t.inputSpecs == t0.inputSpecs + [InputSpecFor(inputs[|inputs| - 1], params, buffers)];
      assert t.graph[..|s.graph|] == t0.graph[..|s.graph|];
      assert t.inputSpecs[..|s.inputSpecs|] == t0.inputSpecs[..|s.inputSpecs|];
    }
  }

  /** The names of `inputs`. */
  function InputNames(inputs: seq<string>): set<string>
  {
    set i | 0 <= i < |inputs| :: inputs[i]
  }

  lemma InputNamesSnoc(inputs: seq<string>)
    requires inputs != []
    ensures InputNames(inputs) == InputNames(inputs[..|inputs| - 1]) + {inputs[|inputs| - 1]}
  {
    var init := inputs[..|inputs| - 1];
    forall i | 0 <= i < |inputs| ensures inputs[i] in InputNames(init) + {inputs[|inputs| - 1]} {
      if i < |init| { assert init[i] == inputs[i]; }
    }
    forall i | 0 <= i < |init| ensures init[i] in InputNames(inputs) {
      assert init[i] == inputs[i];
    }
  }

  /** Binding the last input binds its name to the next placeholder. */
  lemma BindInputsLast(s: State, inputs: seq<string>, params: set<string>, buffers: set<string>)
    requires inputs != []
    ensures var t0 := BindInputs(s, inputs[..|inputs| - 1], params, buffers);
      BindInputs(s, inputs, params, buffers).nameToNode == t0.nameToNode[inputs[|inputs| - 1] := NodeRef(|t0.graph|)]
  {
  }

  /** Every graph input gets bound, and nothing else; a distinct input name
      is bound to its own placeholder. */
  lemma {:induction false} BindInputsBinds(s: State, inputs: seq<string>, params: set<string>, buffers: set<string>)
    ensures BindInputs(s, inputs, params, buffers).nameToNode.Keys == s.nameToNode.Keys + InputNames(inputs)
    ensures Distinct(inputs) ==> forall i :: 0 <= i < |inputs| ==>
      BindInputs(s, inputs, params, buffers).nameToNode[inputs[i]] == NodeRef(|s.graph| + i)
    decreases |inputs|
  {
    if inputs != [] {
      var init := inputs[..|inputs| - 1];
      var last := inputs[|inputs| - 1];
      BindInputsBinds(s, init, params, buffers);
      BindInputsPlaces(s, init, params, buffers);
      BindInputsLast(s, inputs, params, buffers);
      InputNamesSnoc(inputs);
      if Distinct(inputs) {
        assert forall i :: 0 <= i < |init| ==> init[i] in InputNames(init);
        BindInputsDistinct(s, inputs, params, buffers);
      }
    }
  }

  /** The inductive step of `BindInputsBinds` for distinct names: binding
      the last name leaves the earlier names' placeholders alone. */
  lemma BindInputsDistinct(s: State, inputs: seq<string>, params: set<string>, buffers: set<string>)
    requires inputs != [] && Distinct(inputs)
    requires var init := inputs[..|inputs| - 1];
      var t0 := BindInputs(s, init, params, buffers);
      |t0.graph| == |s.graph| + |init| &&
      BindInputs(s, inputs, params, buffers).nameToNode == t0.nameToNode[inputs[|inputs| - 1] := NodeRef(|t0.graph|)] &&
      (forall i :: 0 <= i < |init| ==> init[i] in t0.nameToNode) &&
      (Distinct(init) ==> forall i :: 0 <= i < |init| ==> t0.nameToNode[init[i]] == NodeRef(|s.graph| + i))
    ensures forall i :: 0 <= i < |inputs| ==>
      BindInputs(s, inputs, params, buffers).nameToNode[inputs[i]] == NodeRef(|s.graph| + i)
  {
    var init := inputs[..|inputs| - 1];
    assert Distinct(init);
    forall i | 0 <= i < |init| ensures inputs[i] != inputs[|inputs| - 1] && inputs[i] == init[i] {
    }
  }

  // ---------------------------------------------------------------------------
  // Constants and attributes
  // ---------------------------------------------------------------------------

  /** The attribute kind `node.kindOf("value")` reports. */
  function AttrKind(a: ConstAttr): string
    requires !a.NoValue?
  {
    match a
    case IntAttr(_) => "i"
    case FloatAttr(_) => "f"
    case StrAttr(_) => "s"
    case TensorAttr(_) => "t"
    case IValAttr(_) => "ival"
    case OtherAttr(kind) => kind
  }

  const ConstantKinds: set<string> := {"i", "f", "s", "t", "ival"}

  /** `OtherAttr` never carries one of the kinds read directly. */
  predicate AttrWellFormed(a: ConstAttr)
  {
    a.OtherAttr? ==> a.kind !in ConstantKinds
  }

  /** `convert_prim_Constant`. A tensor is lifted to placeholder
      `"constant_" + name` with a `CONSTANT_TENSOR` spec, and the name is
      bound to that placeholder in both tables; other values go to
      `constant_map`, `None` when there is no `value` attribute. */
  function ConstantEffect(s: State, node: TsNode): Result<State, ConvertError>
  {
    var name := node.output;
    match node.value
    case NoValue => Success(s.(constantMap := s.constantMap[name := NoneValue]))
    case IntAttr(i) => Success(s.(constantMap := s.constantMap[name := IntValue(i)]))
    case FloatAttr(f) => Success(s.(constantMap := s.constantMap[name := FloatValue(f)]))
    case StrAttr(t) => Success(s.(constantMap := s.constantMap[name := StrValue(t)]))
    case IValAttr(v) => Success(s.(constantMap := s.constantMap[name := IValue(v)]))
    case TensorAttr(t) =>
      var p := "constant_" + name;
      var e := Emit(s, Placeholder(p), name);
      Success(e.(tensorConstants := s.tensorConstants[p := t],
                 inputSpecs := s.inputSpecs + [InputSpec(ConstantTensor, p, p, None)],
                 constantMap := s.constantMap[name := NodeRef(|s.graph|)]))
    case OtherAttr(kind) => Failure(UnsupportedConstantType(kind))
  }

  /** A constant node fails exactly on the unsupported attribute kinds, and a
      fresh constant name then resolves to the constant: to the lifted
      placeholder for a tensor, to the Python value otherwise. */
  lemma ConstantResolves(s: State, node: TsNode)
    requires AttrWellFormed(node.value)
    requires node.output !in s.nameToNode && node.output !in s.attributeMap
    ensures ConstantEffect(s, node).Failure? <==> !node.value.NoValue? && AttrKind(node.value) !in ConstantKinds
    ensures ConstantEffect(s, node).Success? ==>
      Lookup(ConstantEffect(s, node).value, node.output) == Success(
        match node.value
        case NoValue => NoneValue
        case IntAttr(i) => IntValue(i)
        case FloatAttr(f) => FloatValue(f)
        case StrAttr(t) => StrValue(t)
        case IValAttr(v) => IValue(v)
        case TensorAttr(_) => NodeRef(|s.graph|)
        case OtherAttr(_) => NoneValue)
  {
    match node.value
    case TensorAttr(t) =>
      var r := ConstantEffect(s, node).value;
      assert r.nameToNode[node.output] == NodeRef(|s.graph|);
    case _ =>
  }

  /** The attribute path `GetAttr` records: `root + "." + attr`, or just
      `attr` under an empty root. */
  function AttrPath(root: string, attr: string): string
  {
    if root != "" then root + "." + attr else attr
  }

  /** `prim::GetAttr`: the input must be a known object. */
  function GetAttrEffect(s: State, node: TsNode): Result<State, ConvertError>
  {
    if |node.inputs| != 1 then Failure(WrongArity(node.kind))
    else if node.inputs[0] !in s.attributeMap then Failure(AttributeNotFound(node.inputs[0]))
    else Success(s.(attributeMap := s.attributeMap[node.output := AttrPath(s.attributeMap[node.inputs[0]], node.attrName)]))
  }

  /** Names joined by dots. */
  function JoinDots(names: seq<string>): string
  {
    if names == [] then ""
    else if |names| == 1 then names[0]
    else JoinDots(names[..|names| - 1]) + "." + names[|names| - 1]
  }

  /** A chain of `GetAttr`s from a `CreateObject` (whose path is "") builds
      the dotted path of the attribute names. */
  lemma {:induction false} AttrPathChain(names: seq<string>, attr: string)
    requires forall i :: 0 <= i < |names| ==> names[i] != ""
    ensures AttrPath(JoinDots(names), attr) == JoinDots(names + [attr])
  {
    assert (names + [attr])[..|names|] == names;
    if names != [] {
      assert JoinDots(names) != "" by {
        if |names| > 1 {
          assert JoinDots(names)[|JoinDots(names[..|names| - 1])|] == '.';
        }
      }
    }
  }

  // ---------------------------------------------------------------------------
  // Operator calls
  // ---------------------------------------------------------------------------

  /** The `torch.ops.aten` overload a schema resolves to (the namespace is
      not consulted). */
  function TargetName(sc: Schema): string
  {
    "aten." + sc.op + "." + (if sc.overload == "" then "default" else sc.overload)
  }

  /** `aten.size.int` is replaced by `aten.sym_size.int`; every other target
      is kept. */
  function Retarget(t: string): (r: string)
    ensures r != "aten.size.int"
    ensures t != "aten.size.int" ==> r == t
  {
    if t == "aten.size.int" then "aten.sym_size.int" else t
  }

  /** `convert_aten_op`. */
  function AtenOpEffect(s: State, node: TsNode): Result<State, ConvertError>
  {
    if node.schema.None? then Failure(UnsupportedNode(node.kind))
    else
      var sc := node.schema.value;
      var inv :- Invoke(s, node.inputs, sc.arguments);
      Success(Emit(s, Call(Retarget(TargetName(sc)), inv.args, inv.kwargs), node.output))
  }

  /** The argument list of `aten::convolution`. */
  const ConvolutionArgs: seq<Arg> := [
    Arg("input", false), Arg("weight", false), Arg("bias", false), Arg("stride", false),
    Arg("padding", false), Arg("dilation", false), Arg("transposed", false),
    Arg("output_padding", false), Arg("groups", false)]

  /** `aten::_convolution` becomes `aten.convolution.default`, its inputs
      paired with that operator's arguments. */
  function ConvolutionEffect(s: State, node: TsNode): Result<State, ConvertError>
  {
    var inv :- Invoke(s, node.inputs, ConvolutionArgs);
    Success(Emit(s, Call("aten.convolution.default", inv.args, inv.kwargs), node.output))
  }

  /** Whether value `v` is the placeholder of a lifted tensor constant,
      `None` when `v` has no `.name` (it is not an FX node). */
  function NamesTensorConstant(s: State, v: Value): Option<bool>
  {
    if !v.NodeRef? then None
    else Some(v.index < |s.graph| && s.graph[v.index].Placeholder? && s.graph[v.index].name in s.tensorConstants)
  }

  /** `aten::div`: a `Tensor_mode` division by a lifted one-element tensor
      constant becomes `aten.div.Scalar_mode` by its item; any other
      division is an ordinary operator call. */
  function DivEffect(s: State, node: TsNode): Result<State, ConvertError>
  {
    if node.schema.None? then Failure(UnknownOperator(node.kind))
    else
      var sc := node.schema.value;
      var inv :- Invoke(s, node.inputs, sc.arguments);
      if sc.overload != "Tensor_mode" then AtenOpEffect(s, node)
      else if |inv.args| < 2 then Failure(IndexOutOfRange)
      else match NamesTensorConstant(s, inv.args[1])
        case None => Failure(NoNameAttribute)
        case Some(isConstant) =>
          if isConstant && s.tensorConstants[s.graph[inv.args[1].index].name].numel == 1 then
            var item := s.tensorConstants[s.graph[inv.args[1].index].name].item;
            Success(Emit(s, Call("aten.div.Scalar_mode", inv.args[1 := item], inv.kwargs), node.output))
          else AtenOpEffect(s, node)
  }

  /** `convert_as_noop` (`aten::Bool`): the output stands for the first
      positional argument. */
  function NoopEffect(s: State, node: TsNode): Result<State, ConvertError>
  {
    if node.schema.None? then Failure(UnknownOperator(node.kind))
    else
      var inv :- Invoke(s, node.inputs, node.schema.value.arguments);
      if |inv.args| == 0 then Failure(IndexOutOfRange) else Success(Bind(s, node.output, inv.args[0]))
  }

  /** `prim::NumToTensor` (`aten.scalar_tensor`) and `prim::TupleIndex`
      (`operator.getitem`): a call on the values of all inputs. */
  function CallEffect(s: State, node: TsNode, target: string): Result<State, ConvertError>
  {
    var args :- LookupAll(s, node.inputs);
    Success(Emit(s, Call(target, args, map[]), node.output))
  }

  /** `prim::ListConstruct` and `prim::TupleConstruct`: the output stands for
      the list of the input values. */
  function ListEffect(s: State, node: TsNode): Result<State, ConvertError>
  {
    var items :- LookupAll(s, node.inputs);
    Success(Bind(s, node.output, ListOf(items)))
  }

  // ---------------------------------------------------------------------------
  // prim::If
  // ---------------------------------------------------------------------------

  function Flatten(blocks: seq<Block>): seq<string>
  {
    if blocks == [] then [] else Flatten(blocks[..|blocks| - 1]) + blocks[|blocks| - 1].inputs
  }

  /** The names read inside the blocks that are bound outside them, each
      once, in order of first use. */
  function Arguments(m: map<string, Value>, names: seq<string>): (r: seq<string>)
    ensures Distinct(r)
    ensures forall x :: x in r <==> x in names && x in m
  {
    if names == [] then []
    else
      var a := Arguments(m, names[..|names| - 1]);
      var x := names[|names| - 1];
      assert forall y :: y in names <==> y in names[..|names| - 1] || y == x;
      if x in m && x !in a then a + [x] else a
  }

  function BoundValues(m: map<string, Value>, names: seq<string>): seq<Value>
    requires forall x :: x in names ==> x in m
  {
    seq(|names|, i requires 0 <= i < |names| => m[names[i]])
  }

  /** Each block gets the next subgraph name and a `get_attr` node. */
  function AddBlocks(s: State, blocks: seq<Block>): (r: State)
    ensures r == s.(graph := r.graph, subgraphs := r.subgraphs)
    ensures |r.graph| == |s.graph| + |blocks| && r.graph[..|s.graph|] == s.graph
    decreases |blocks|
  {
    if blocks == [] then s
    else
      var t := AddBlocks(s, blocks[..|blocks| - 1]);
      var name := SubgraphName(|t.subgraphs|);
      var u := AddSubgraph(t, blocks[|blocks| - 1].subgraph).(graph := t.graph + [GetAttrNode(name)]);
      assert u.graph[..|s.graph|] == t.graph[..|s.graph|];
      u
  }

  /** Adding the blocks' subgraphs keeps them named by count and hands
      block `i` the name `subgraph_{k+i}`, where `k` subgraphs existed. */
  lemma {:induction false} AddBlocksNames(s: State, blocks: seq<Block>)
    requires SubgraphsNamed(s.subgraphs)
    ensures var r := AddBlocks(s, blocks);
      SubgraphsNamed(r.subgraphs) && |r.subgraphs| == |s.subgraphs| + |blocks| &&
      forall i :: |s.graph| <= i < |r.graph| ==> r.graph[i] == GetAttrNode(SubgraphName(|s.subgraphs| + i - |s.graph|))
    decreases |blocks|
  {
    if blocks != [] {
      var init := blocks[..|blocks| - 1];
      AddBlocksNames(s, init);
      var t := AddBlocks(s, init);
      AddSubgraphFresh(t, blocks[|blocks| - 1].subgraph);
      var r := AddBlocks(s, blocks);
      assert r.subgraphs == AddSubgraph(t, blocks[|blocks| - 1].subgraph).subgraphs;
      assert r.graph == t.graph + [GetAttrNode(SubgraphName(|t.subgraphs|))];
      forall i | |s.graph| <= i < |r.graph|
        ensures r.graph[i] == GetAttrNode(SubgraphName(|s.subgraphs| + i - |s.graph|))
      {
        if i < |t.graph| {
          assert r.graph[i] == t.graph[i];
        } else {
          assert i == |t.graph| == |s.graph| + |init|;
          assert |s.subgraphs| + i - |s.graph| == |t.subgraphs|;
        }
      }
    }
  }

  /** `convert_prim_if`: the predicate, then one subgraph per block, then a
      `torch.cond` call on the predicate, the two subgraphs and the values
      of the block arguments. */
  function IfEffect(s: State, node: TsNode): Result<State, ConvertError>
  {
    if |node.inputs| != 1 then Failure(AssertionFailed)
    else
      var cond :- Lookup(s, node.inputs[0]);
      var arguments := Arguments(s.nameToNode, Flatten(node.blocks));
      var t := AddBlocks(s, node.blocks);
      if |node.blocks| != 2 then Failure(AssertionFailed)
      else
        var args := [cond, NodeRef(|s.graph|), NodeRef(|s.graph| + 1), ListOf(BoundValues(s.nameToNode, arguments))];
        Success(Emit(t, Call("torch.cond", args, map[]), node.output))
  }

  // ---------------------------------------------------------------------------
  // Dispatch
  // ---------------------------------------------------------------------------

  datatype Handler =
    | CreateObject | Constant | GetAttr | NumToTensor | ListConstruct | TupleIndex
    | Convolution | Div | If | AsNoop | AtenOp | Unsupported

  predicate StartsWith(s: string, prefix: string)
  {
    |prefix| <= |s| && s[..|prefix|] == prefix
  }

  /** `convert_node`'s choice of handler. */
  function HandlerOf(kind: string): Handler
  {
    if kind == "prim::CreateObject" then CreateObject
    else if kind == "prim::Constant" then Constant
    else if kind == "prim::GetAttr" then GetAttr
    else if kind == "prim::NumToTensor" then NumToTensor
    else if kind in ["prim::ListConstruct", "prim::TupleConstruct"] then ListConstruct
    else if kind == "prim::TupleIndex" then TupleIndex
    else if kind == "aten::_convolution" then Convolution
    else if kind == "aten::div" then Div
    else if kind == "prim::If" then If
    else if kind == "aten::Bool" then AsNoop
    else if StartsWith(kind, "aten::") then AtenOp
    else Unsupported
  }

  const PrimKinds: set<string> := {
    "prim::CreateObject", "prim::Constant", "prim::GetAttr", "prim::NumToTensor",
    "prim::ListConstruct", "prim::TupleConstruct", "prim::TupleIndex", "prim::If"}

  /** Tuples are built like lists; every `aten::` kind has a handler (the
      general operator call unless it has its own); a kind is refused
      exactly when it is neither one of the handled `prim::` kinds nor an
      `aten::` kind. */
  lemma DispatchTable(kind: string)
    ensures HandlerOf("prim::TupleConstruct") == HandlerOf("prim::ListConstruct") == ListConstruct
    ensures StartsWith(kind, "aten::") ==> HandlerOf(kind) in {Convolution, Div, AsNoop, AtenOp}
    ensures StartsWith(kind, "aten::") && kind !in {"aten::_convolution", "aten::div", "aten::Bool"} ==> HandlerOf(kind) == AtenOp
    ensures HandlerOf(kind) == Unsupported <==> kind !in PrimKinds && !StartsWith(kind, "aten::")
  {
    if StartsWith(kind, "aten::") {
      assert kind[0] == kind[..6][0] == 'a';
      assert kind !in PrimKinds;
    }
    if kind in PrimKinds {
      assert HandlerOf(kind) != Unsupported;
    }
  }

  /** `convert_node`: what converting `node` does to the tables. */
  function Effect(s: State, node: TsNode): Result<State, ConvertError>
  {
    match HandlerOf(node.kind)
    case CreateObject => Success(s.(attributeMap := s.attributeMap[node.output := ""]))
    case Constant => ConstantEffect(s, node)
    case GetAttr => GetAttrEffect(s, node)
    case NumToTensor => CallEffect(s, node, "aten.scalar_tensor")
    case ListConstruct => ListEffect(s, node)
    case TupleIndex => CallEffect(s, node, "operator.getitem")
    case Convolution => ConvolutionEffect(s, node)
    case Div => DivEffect(s, node)
    case If => IfEffect(s, node)
    case AsNoop => NoopEffect(s, node)
    case AtenOp => AtenOpEffect(s, node)
    case Unsupported => Failure(UnsupportedNodeKind(node.kind))
  }

  // ---------------------------------------------------------------------------
  // Graph outputs and the whole conversion
  // ---------------------------------------------------------------------------

  /** The values bound to the output names, stopping at the first name that
      is not in `name_to_node`. */
  function OutputValues(m: map<string, Value>, outputs: seq<string>): (r: Result<seq<Value>, ConvertError>)
    ensures r.Success? <==> forall i :: 0 <= i < |outputs| ==> outputs[i] in m
    ensures r.Success? ==> r.value == BoundValues(m, outputs)
    ensures r.Failure? ==> exists i :: 0 <= i < |outputs| && outputs[i] !in m && r.error == OutputNotFound(outputs[i]) &&
                                       forall j :: 0 <= j < i ==> outputs[j] in m
    decreases |outputs|
  {
    if outputs == [] then Success([])
    else
      var pre, name := outputs[..|outputs| - 1], outputs[|outputs| - 1];
      var init := OutputValues(m, pre);
      assert forall j :: 0 <= j < |pre| ==> pre[j] == outputs[j];
      if init.Failure? then init
      else if name in m then Success(init.value + [m[name]])
      else Failure(OutputNotFound(name))
  }

  /** An output name missing after a resolved prefix is the error. */
  lemma OutputValuesStuck(m: map<string, Value>, outputs: seq<string>, i: nat)
    requires i < |outputs| && OutputValues(m, outputs[..i]).Success? && outputs[i] !in m
    ensures OutputValues(m, outputs) == Failure(OutputNotFound(outputs[i]))
  {
    assert forall j :: 0 <= j < i ==> outputs[..i][j] == outputs[j];
    var r := OutputValues(m, outputs);
    var k :| 0 <= k < |outputs| && outputs[k] !in m && r.error == OutputNotFound(outputs[k]) &&
             forall j :: 0 <= j < k ==> outputs[j] in m;
    assert k == i;
  }

  function OutputSpecs(outputs: seq<string>): (r: seq<OutputSpec>)
    ensures |r| == |outputs| && forall i :: 0 <= i < |outputs| ==> r[i] == OutputSpec(outputs[i], outputs[i])
  {
    if outputs == [] then []
    else
      var pre, name := outputs[..|outputs| - 1], outputs[|outputs| - 1];
      assert forall j :: 0 <= j < |pre| ==> pre[j] == outputs[j];
      OutputSpecs(pre) + [OutputSpec(name, name)]
  }

  /** `convert_graph_outputs`: one `USER_OUTPUT` spec per output and an
      output node holding the first output's value. */
  function OutputsEffect(s: State, outputs: seq<string>): (r: Result<State, ConvertError>)
    ensures r.Success? <==> |outputs| >= 1 && forall i :: 0 <= i < |outputs| ==> outputs[i] in s.nameToNode
    ensures r.Success? ==> r.value == s.(outputSpecs := s.outputSpecs + OutputSpecs(outputs),
                                         graph := s.graph + [Output(s.nameToNode[outputs[0]])])
  {
    var values :- OutputValues(s.nameToNode, outputs);
    if |outputs| == 0 then Failure(IndexOutOfRange)
    else Success(s.(outputSpecs := s.outputSpecs + OutputSpecs(outputs), graph := s.graph + [Output(values[0])]))
  }

  /** A TorchScript graph: its input names, its nodes and its output
      names. */
  datatype TsGraph = TsGraph(inputs: seq<string>, nodes: seq<TsNode>, outputs: seq<string>)

  /** An operation's outcome `o` and state `t` are those that `r` describes. */
  predicate Reflects(o: Outcome<ConvertError>, r: Result<State, ConvertError>, t: State)
  {
    (o.Pass? ==> r.Success? && t == r.value) && (o.Fail? ==> r.Failure? && o.error == r.error)
  }

  function ConvertNodes(s: State, nodes: seq<TsNode>): Result<State, ConvertError>
    decreases |nodes|
  {
    if nodes == [] then Success(s)
    else
      var t :- ConvertNodes(s, nodes[..|nodes| - 1]);
      Effect(t, nodes[|nodes| - 1])
  }

  /** `convert`: the graph inputs, every node in order, the graph outputs. */
  function ConvertFrom(s: State, params: set<string>, buffers: set<string>, g: TsGraph): Result<State, ConvertError>
  {
    var t := BindInputs(s, g.inputs, params, buffers);
    var u :- ConvertNodes(t, g.nodes);
    OutputsEffect(u, g.outputs)
  }

  // ---------------------------------------------------------------------------
  // What a conversion keeps
  // ---------------------------------------------------------------------------

  /** No emitted call targets `aten.size.int`. */
  predicate NoSizeInt(g: seq<FxNode>)
  {
    forall i :: 0 <= i < |g| && g[i].Call? ==> g[i].target != "aten.size.int"
  }

  /** `t` only adds to `s`: nodes are appended, input specs are appended
      and are lifted tensor constants, output specs are untouched, no table
      loses a key and no appended call targets `aten.size.int`. */
  predicate Extends(s: State, t: State)
  {
    |s.graph| <= |t.graph| && t.graph[..|s.graph|] == s.graph && NoSizeInt(t.graph[|s.graph|..]) &&
    |s.inputSpecs| <= |t.inputSpecs| && t.inputSpecs[..|s.inputSpecs|] == s.inputSpecs &&
    (forall i :: |s.inputSpecs| <= i < |t.inputSpecs| ==> t.inputSpecs[i].kind == ConstantTensor) &&
    t.outputSpecs == s.outputSpecs &&
    s.nameToNode.Keys <= t.nameToNode.Keys && s.constantMap.Keys <= t.constantMap.Keys &&
    s.attributeMap.Keys <= t.attributeMap.Keys && s.tensorConstants.Keys <= t.tensorConstants.Keys &&
    s.subgraphs.Keys <= t.subgraphs.Keys
  }

  lemma ExtendsTransitive(s: State, t: State, u: State)
    requires Extends(s, t) && Extends(t, u)
    ensures Extends(s, u)
  {
    PrefixTransitive(s.graph, t.graph, u.graph);
    NoSizeIntAppend(t.graph[|s.graph|..], u.graph[|t.graph|..]);
    PrefixTransitive(s.inputSpecs, t.inputSpecs, u.inputSpecs);
    ConstantTailsAppend(t.inputSpecs[|s.inputSpecs|..], u.inputSpecs[|t.inputSpecs|..]);
    assert forall i :: |s.inputSpecs| <= i < |u.inputSpecs| ==>
      u.inputSpecs[i] == u.inputSpecs[|s.inputSpecs|..][i - |s.inputSpecs|];
  }

  /** A prefix of a prefix is a prefix, and the tails concatenate. */
  lemma PrefixTransitive<T>(x: seq<T>, y: seq<T>, z: seq<T>)
    requires |x| <= |y| <= |z| && y[..|x|] == x && z[..|y|] == y
    ensures z[..|x|] == x && z[|x|..] == y[|x|..] + z[|y|..]
  {
    assert z[..|x|] == z[..|y|][..|x|];
    assert z == y + z[|y|..];
    assert y == x + y[|x|..];
  }

  lemma NoSizeIntAppend(a: seq<FxNode>, b: seq<FxNode>)
    requires NoSizeInt(a) && NoSizeInt(b)
    ensures NoSizeInt(a + b)
  {
    forall i | 0 <= i < |a + b| && (a + b)[i].Call?
      ensures (a + b)[i].target != "aten.size.int"
    {
      if i < |a| { assert (a + b)[i] == a[i]; } else { assert (a + b)[i] == b[i - |a|]; }
    }
  }

  lemma ConstantTailsAppend(a: seq<InputSpec>, b: seq<InputSpec>)
    requires forall i :: 0 <= i < |a| ==> a[i].kind == ConstantTensor
    requires forall i :: 0 <= i < |b| ==> b[i].kind == ConstantTensor
    ensures forall i :: 0 <= i < |a + b| ==> (a + b)[i].kind == ConstantTensor
  {
  }

  /** Appending one node is an extension when the node is not a call of
      `aten.size.int`. */
  lemma EmitExtends(s: State, node: FxNode, name: string)
    requires !(node.Call? && node.target == "aten.size.int")
    ensures Extends(s, Emit(s, node, name))
  {
    var t := Emit(s, node, name);
    assert t.graph[..|s.graph|] == s.graph;
    assert t.graph[|s.graph|..] == [node];
  }

  lemma AddBlocksExtends(s: State, blocks: seq<Block>)
    requires SubgraphsNamed(s.subgraphs)
    ensures Extends(s, AddBlocks(s, blocks)) && SubgraphsNamed(AddBlocks(s, blocks).subgraphs)
  {
    var r := AddBlocks(s, blocks);
    AddBlocksNames(s, blocks);
    assert SubgraphNames(|s.subgraphs|) <= SubgraphNames(|r.subgraphs|);
    var g := r.graph[|s.graph|..];
    forall i | 0 <= i < |g| ensures !g[i].Call? {
      assert g[i] == r.graph[|s.graph| + i];
    }
  }

  lemma AtenOpExtends(s: State, node: TsNode)
    ensures AtenOpEffect(s, node).Success? ==> Extends(s, AtenOpEffect(s, node).value) && AtenOpEffect(s, node).value.subgraphs == s.subgraphs
  {
    if node.schema.Some? {
      var sc := node.schema.value;
      var inv := Invoke(s, node.inputs, sc.arguments);
      if inv.Success? {
        EmitExtends(s, Call(Retarget(TargetName(sc)), inv.value.args, inv.value.kwargs), node.output);
      }
    }
  }

  lemma DivExtends(s: State, node: TsNode)
    ensures DivEffect(s, node).Success? ==> Extends(s, DivEffect(s, node).value) && DivEffect(s, node).value.subgraphs == s.subgraphs
  {
    AtenOpExtends(s, node);
    if node.schema.Some? {
      var inv := Invoke(s, node.inputs, node.schema.value.arguments);
      if inv.Success? && |inv.value.args| >= 2 {
        var args := inv.value.args;
        EmitExtends(s, Call("aten.div.Scalar_mode", args[1 := NoneValue], inv.value.kwargs), node.output);
        if args[1].NodeRef? && args[1].index < |s.graph| && s.graph[args[1].index].Placeholder? &&
           s.graph[args[1].index].name in s.tensorConstants {
          var item := s.tensorConstants[s.graph[args[1].index].name].item;
          EmitExtends(s, Call("aten.div.Scalar_mode", args[1 := item], inv.value.kwargs), node.output);
        }
      }
    }
  }

  lemma IfExtends(s: State, node: TsNode)
    requires SubgraphsNamed(s.subgraphs)
    ensures IfEffect(s, node).Success? ==>
              Extends(s, IfEffect(s, node).value) && SubgraphsNamed(IfEffect(s, node).value.subgraphs)
  {
    var r := IfEffect(s, node);
    if r.Success? {
      var u := AddBlocks(s, node.blocks);
      AddBlocksExtends(s, node.blocks);
      EmitExtends(u, r.value.graph[|u.graph|], node.output);
      ExtendsTransitive(s, u, r.value);
    }
  }

  /** A state with the same graph and specs and no lost key extends. */
  lemma TablesExtend(s: State, t: State)
    requires t.graph == s.graph && t.inputSpecs == s.inputSpecs && t.outputSpecs == s.outputSpecs
    requires s.nameToNode.Keys <= t.nameToNode.Keys && s.constantMap.Keys <= t.constantMap.Keys
    requires s.attributeMap.Keys <= t.attributeMap.Keys && s.tensorConstants.Keys <= t.tensorConstants.Keys
    requires s.subgraphs.Keys <= t.subgraphs.Keys
    ensures Extends(s, t)
  {
    assert t.graph[|s.graph|..] == [];
  }

  lemma ConstantExtends(s: State, node: TsNode)
    ensures ConstantEffect(s, node).Success? ==> Extends(s, ConstantEffect(s, node).value) && ConstantEffect(s, node).value.subgraphs == s.subgraphs
  {
    if node.value.TensorAttr? {
      TensorConstantExtends(s, node);
    } else if ConstantEffect(s, node).Success? {
      var t := ConstantEffect(s, node).value;
      assert t == s.(constantMap := t.constantMap) && node.output in t.constantMap;
      TablesExtend(s, t);
    }
  }

  lemma TensorConstantExtends(s: State, node: TsNode)
    requires node.value.TensorAttr?
    ensures Extends(s, ConstantEffect(s, node).value) && ConstantEffect(s, node).value.subgraphs == s.subgraphs
  {
    var r := ConstantEffect(s, node);
    var e := Emit(s, Placeholder("constant_" + node.output), node.output);
    EmitExtends(s, Placeholder("constant_" + node.output), node.output);
    assert r.value.graph == e.graph;
  }

  lemma CallExtends(s: State, node: TsNode, target: string)
    requires target != "aten.size.int"
    ensures CallEffect(s, node, target).Success? ==> Extends(s, CallEffect(s, node, target).value) && CallEffect(s, node, target).value.subgraphs == s.subgraphs
  {
    var args := LookupAll(s, node.inputs);
    if args.Success? {
      EmitExtends(s, Call(target, args.value, map[]), node.output);
    }
  }

  lemma ConvolutionExtends(s: State, node: TsNode)
    ensures ConvolutionEffect(s, node).Success? ==> Extends(s, ConvolutionEffect(s, node).value) && ConvolutionEffect(s, node).value.subgraphs == s.subgraphs
  {
    var inv := Invoke(s, node.inputs, ConvolutionArgs);
    if inv.Success? {
      EmitExtends(s, Call("aten.convolution.default", inv.value.args, inv.value.kwargs), node.output);
    }
  }

  lemma ListExtends(s: State, node: TsNode)
    ensures ListEffect(s, node).Success? ==> Extends(s, ListEffect(s, node).value) && ListEffect(s, node).value.subgraphs == s.subgraphs
  {
    if ListEffect(s, node).Success? {
      TablesExtend(s, ListEffect(s, node).value);
    }
  }

  lemma NoopExtends(s: State, node: TsNode)
    ensures NoopEffect(s, node).Success? ==> Extends(s, NoopEffect(s, node).value) && NoopEffect(s, node).value.subgraphs == s.subgraphs
  {
    if NoopEffect(s, node).Success? {
      TablesExtend(s, NoopEffect(s, node).value);
    }
  }

  lemma GetAttrExtends(s: State, node: TsNode)
    ensures GetAttrEffect(s, node).Success? ==> Extends(s, GetAttrEffect(s, node).value) && GetAttrEffect(s, node).value.subgraphs == s.subgraphs
  {
    if GetAttrEffect(s, node).Success? {
      TablesExtend(s, GetAttrEffect(s, node).value);
    }
  }

  lemma CreateObjectExtends(s: State, node: TsNode)
    ensures Extends(s, s.(attributeMap := s.attributeMap[node.output := ""]))
  {
    TablesExtend(s, s.(attributeMap := s.attributeMap[node.output := ""]));
  }

  /** Converting a node only adds to the tables, and keeps the subgraphs
      named by count. */
  lemma EffectExtends(s: State, node: TsNode)
    requires SubgraphsNamed(s.subgraphs)
    ensures Effect(s, node).Success? ==>
              Extends(s, Effect(s, node).value) && SubgraphsNamed(Effect(s, node).value.subgraphs)
  {
    match HandlerOf(node.kind)
    case CreateObject => CreateObjectExtends(s, node);
    case Constant => ConstantExtends(s, node);
    case GetAttr => GetAttrExtends(s, node);
    case NumToTensor => CallExtends(s, node, "aten.scalar_tensor");
    case ListConstruct => ListExtends(s, node);
    case TupleIndex => CallExtends(s, node, "operator.getitem");
    case Convolution => ConvolutionExtends(s, node);
    case Div => DivExtends(s, node);
    case If => IfExtends(s, node);
    case AsNoop => NoopExtends(s, node);
    case AtenOp => AtenOpExtends(s, node);
    case Unsupported =>
  }

  lemma {:induction false} ConvertNodesExtends(s: State, nodes: seq<TsNode>)
    requires SubgraphsNamed(s.subgraphs)
    ensures ConvertNodes(s, nodes).Success? ==>
              Extends(s, ConvertNodes(s, nodes).value) && SubgraphsNamed(ConvertNodes(s, nodes).value.subgraphs)
    decreases |nodes|
  {
    if nodes == [] {
      assert s.graph[|s.graph|..] == [];
    } else {
      var r := ConvertNodes(s, nodes[..|nodes| - 1]);
      ConvertNodesExtends(s, nodes[..|nodes| - 1]);
      if r.Success? {
        EffectExtends(r.value, nodes[|nodes| - 1]);
        if ConvertNodes(s, nodes).Success? {
          ExtendsTransitive(s, r.value, ConvertNodes(s, nodes).value);
        }
      }
    }
  }

  /** A successful conversion has one input spec per graph input, in order
      and classified, followed only by lifted tensor constants; one output
      spec per graph output; an output node last; no call of
      `aten.size.int`; and its subgraphs named `subgraph_0, subgraph_1, ..`. */
  lemma ConvertSignature(params: set<string>, buffers: set<string>, g: TsGraph)
    ensures var r := ConvertFrom(Empty, params, buffers, g);
      var inputs, outputs := g.inputs, g.outputs;
      r.Success? ==>
        |r.value.inputSpecs| >= |inputs| &&
        (forall i :: 0 <= i < |inputs| ==> r.value.inputSpecs[i] == InputSpecFor(inputs[i], params, buffers)) &&
        (forall i :: |inputs| <= i < |r.value.inputSpecs| ==> r.value.inputSpecs[i].kind == ConstantTensor) &&
        r.value.outputSpecs == OutputSpecs(outputs) &&
        |r.value.graph| >= 1 && r.value.graph[|r.value.graph| - 1].Output? &&
        NoSizeInt(r.value.graph) && SubgraphsNamed(r.value.subgraphs)
  {
    var s := BindInputs(Empty, g.inputs, params, buffers);
    assert SubgraphsNamed(s.subgraphs) by {
      BindInputsPlaces(Empty, g.inputs, params, buffers);
      assert s.subgraphs == map[];
    }
    ConvertNodesExtends(s, g.nodes);
    var r := ConvertFrom(Empty, params, buffers, g);
    if r.Success? {
      var t := ConvertNodes(s, g.nodes).value;
      NodesSignature(s, t, g.inputs, params, buffers);
      OutputsSignature(t, r.value, g.outputs);
    }
  }

  /** Emitting the outputs adds their specs and an output node last, and
      no call of `aten.size.int`. */
  lemma OutputsSignature(t: State, u: State, outputs: seq<string>)
    requires NoSizeInt(t.graph) && OutputsEffect(t, outputs) == Success(u)
    ensures u.inputSpecs == t.inputSpecs && u.outputSpecs == t.outputSpecs + OutputSpecs(outputs)
    ensures |u.graph| >= 1 && u.graph[|u.graph| - 1].Output? && NoSizeInt(u.graph)
  {
    NoSizeIntAppend(t.graph, [u.graph[|t.graph|]]);
  }

  /** After the graph inputs are bound, the nodes (which only extend the
      state) leave the inputs' specs first, lifted tensor constants after
      them, no output spec and no call of `aten.size.int`. */
  lemma NodesSignature(s: State, t: State, inputs: seq<string>, params: set<string>, buffers: set<string>)
    requires s == BindInputs(Empty, inputs, params, buffers) && Extends(s, t)
    ensures |t.inputSpecs| >= |inputs|
    ensures forall i :: 0 <= i < |inputs| ==> t.inputSpecs[i] == InputSpecFor(inputs[i], params, buffers)
    ensures forall i :: |inputs| <= i < |t.inputSpecs| ==> t.inputSpecs[i].kind == ConstantTensor
    ensures t.outputSpecs == [] && NoSizeInt(t.graph)
  {
    BindInputsPlaces(Empty, inputs, params, buffers);
    assert s.graph[|Empty.graph|..] == s.graph;
    assert NoSizeInt(s.graph);
    assert t.graph == s.graph + t.graph[|s.graph|..];
    NoSizeIntAppend(s.graph, t.graph[|s.graph|..]);
    forall i | 0 <= i < |inputs| ensures t.inputSpecs[i] == InputSpecFor(inputs[i], params, buffers) {
      assert t.inputSpecs[i] == t.inputSpecs[..|s.inputSpecs|][i] == s.inputSpecs[i];
    }
  }
}
