/** The converter object (`TS2FXGraphConverter`): its tables are fields that
    its methods update in place while it walks a TorchScript graph. Every
    method is proved to do what `ConverterGraph` says converting does, so
    the properties proved there hold of the object. */
module Converter {
  import opened Wrappers
  import opened ConverterGraph
  import Decimal

  class TS2FXGraphConverter {
    const tsGraph: TsGraph
    const paramNames: set<string>
    const bufferNames: set<string>

    var graph: seq<FxNode>
    var inputSpecs: seq<InputSpec>
    var outputSpecs: seq<OutputSpec>
    var nameToNode: map<string, Value>
    var constantMap: map<string, Value>
    var attributeMap: map<string, string>
    var tensorConstants: map<string, Tensor>
    var subgraphs: map<string, Module>

    /** The tables, as a value. */
    function Tables(): State
      reads this
    {
      State(graph, inputSpecs, outputSpecs, nameToNode, constantMap, attributeMap, tensorConstants, subgraphs)
    }

    constructor (tsGraph: TsGraph, paramNames: set<string>, bufferNames: set<string>)
      ensures this.tsGraph == tsGraph && this.paramNames == paramNames && this.bufferNames == bufferNames
      ensures Tables() == Empty
    {
      this.tsGraph := tsGraph;
      this.paramNames := paramNames;
      this.bufferNames := bufferNames;
      graph, inputSpecs, outputSpecs := [], [], [];
      nameToNode, constantMap, attributeMap := map[], map[], map[];
      tensorConstants, subgraphs := map[], map[];
    }

    /** `add_subgraph`: the name is `subgraph_k` for the `k` subgraphs
        already held; while subgraphs are named by count it is fresh and
        the table grows by one. */
    method AddSubgraph(m: Module) returns (name: string)
      modifies this
      ensures name == SubgraphName(|old(subgraphs)|)
      ensures Tables() == ConverterGraph.AddSubgraph(old(Tables()), m)
      ensures old(SubgraphsNamed(subgraphs)) ==>
                name !in old(subgraphs) && |subgraphs| == |old(subgraphs)| + 1 && SubgraphsNamed(subgraphs)
    {
      if SubgraphsNamed(subgraphs) {
        AddSubgraphFresh(Tables(), m);
      }
      name := "subgraph_" + Decimal.NatToString(|subgraphs|);
      subgraphs := subgraphs[name := m];
    }

    /** `get_fx_value`. */
    function GetFxValue(name: string): Result<Value, ConvertError>
      reads this
    {
      Lookup(Tables(), name)
    }

    /** The values of `names` in order (the loops and comprehensions of
        `ListConstruct`, `TupleIndex` and `NumToTensor`). */
    method LookupInputs(names: seq<string>) returns (r: Result<seq<Value>, ConvertError>)
      ensures r == LookupAll(Tables(), names)
    {
      var values: seq<Value> := [];
      var i := 0;
      while i < |names|
        invariant 0 <= i <= |names|
        invariant LookupAll(Tables(), names[..i]) == Success(values)
      {
        assert names[..i + 1][..i] == names[..i];
        var v := GetFxValue(names[i]);
        if v.Failure? {
          assert forall j :: 0 <= j < i ==> names[..i][j] == names[j];
          return Failure(v.error);
        }
        values := values + [v.value];
        i := i + 1;
      }
      assert names[..i] == names;
      return Success(values);
    }

    /** `get_args_kwargs`. */
    method GetArgsKwargs(inputs: seq<string>, arguments: seq<Arg>) returns (r: Result<Invocation, ConvertError>)
      ensures r == Invoke(Tables(), inputs, arguments)
    {
      var m := if |inputs| < |arguments| then |inputs| else |arguments|;
      var args: seq<Value> := [];
      var kwargs: map<string, Value> := map[];
      var i := 0;
      while i < m
        invariant 0 <= i <= m
        invariant ArgsKwargs(Tables(), inputs, arguments, i) == Success(Invocation(args, kwargs))
      {
        var v := GetFxValue(inputs[i]);
        if v.Failure? {
          FirstFailure(Tables(), inputs, arguments, i, m);
          return Failure(v.error);
        }
        if arguments[i].kwargOnly {
          kwargs := kwargs[arguments[i].name := v.value];
        } else {
          args := args + [v.value];
        }
        i := i + 1;
      }
      return Success(Invocation(args, kwargs));
    }

    /** `convert_graph_inputs`. */
    method ConvertGraphInputs()
      modifies this
      ensures Tables() == BindInputs(old(Tables()), tsGraph.inputs, paramNames, bufferNames)
    {
      var inputs := tsGraph.inputs;
      var i := 0;
      while i < |inputs|
        invariant 0 <= i <= |inputs|
        invariant Tables() == BindInputs(old(Tables()), inputs[..i], paramNames, bufferNames)
      {
        assert inputs[..i + 1][..i] == inputs[..i];
        var name := inputs[i];
        var normalizedName := NormalizeName(name);
        graph := graph + [Placeholder(normalizedName)];
        nameToNode := nameToNode[name := NodeRef(|graph| - 1)];
        if name in paramNames {
          inputSpecs := inputSpecs + [InputSpec(Parameter, normalizedName, name, None)];
        } else if name in bufferNames {
          inputSpecs := inputSpecs + [InputSpec(Buffer, normalizedName, name, Some(true))];
        } else {
          inputSpecs := inputSpecs + [InputSpec(UserInput, normalizedName, name, None)];
        }
        i := i + 1;
      }
      assert inputs[..i] == inputs;
    }

    /** `convert_prim_Constant`. */
    method ConvertPrimConstant(node: TsNode) returns (o: Outcome<ConvertError>)
      modifies this
      ensures Reflects(o, ConstantEffect(old(Tables()), node), Tables())
    {
      var name := node.output;
      var value: Value := NoneValue;
      match node.value {
        case NoValue =>
        case IntAttr(i) => value := IntValue(i);
        case FloatAttr(f) => value := FloatValue(f);
        case StrAttr(t) => value := StrValue(t);
        case TensorAttr(t) =>
          var placeholderName := "constant_" + name;
          graph := graph + [Placeholder(placeholderName)];
          nameToNode := nameToNode[name := NodeRef(|graph| - 1)];
          tensorConstants := tensorConstants[placeholderName := t];
          inputSpecs := inputSpecs + [InputSpec(ConstantTensor, placeholderName, placeholderName, None)];
          value := NodeRef(|graph| - 1);
        case IValAttr(v) => value := IValue(v);
        case OtherAttr(kind) => return Fail(UnsupportedConstantType(kind));
      }
      constantMap := constantMap[name := value];
      return Pass;
    }

    /** `convert_prim_GetAttr`. */
    method ConvertPrimGetAttr(node: TsNode) returns (o: Outcome<ConvertError>)
      modifies this
      ensures Reflects(o, GetAttrEffect(old(Tables()), node), Tables())
    {
      if |node.inputs| != 1 {
        return Fail(WrongArity(node.kind));
      }
      var outputName, attrName, inputName := node.output, node.attrName, node.inputs[0];
      if inputName !in attributeMap {
        return Fail(AttributeNotFound(inputName));
      }
      var rootAttrName := attributeMap[inputName];
      attributeMap := attributeMap[outputName := if rootAttrName != "" then rootAttrName + "." + attrName else attrName];
      return Pass;
    }

    /** `convert_prim_CreateObject`: a new object, at the root of every
        attribute path read from it. */
    method ConvertPrimCreateObject(node: TsNode)
      modifies this
      ensures Tables() == old(Tables()).(attributeMap := old(attributeMap)[node.output := ""])
    {
      attributeMap := attributeMap[node.output := ""];
    }

    /** `convert_aten_op`. */
    method ConvertAtenOp(node: TsNode) returns (o: Outcome<ConvertError>)
      modifies this
      ensures Reflects(o, AtenOpEffect(old(Tables()), node), Tables())
    {
      if node.schema.None? {
        return Fail(UnsupportedNode(node.kind));
      }
      var schema := node.schema.value;
      var target := TargetName(schema);
      if target == "aten.size.int" {
        target := "aten.sym_size.int";
      }
      var inv := GetArgsKwargs(node.inputs, schema.arguments);
      if inv.Failure? {
        return Fail(inv.error);
      }
      graph := graph + [Call(target, inv.value.args, inv.value.kwargs)];
      nameToNode := nameToNode[node.output := NodeRef(|graph| - 1)];
      return Pass;
    }

    /** `convert_prim_ListConstruct`, also used for `prim::TupleConstruct`. */
    method ConvertPrimListConstruct(node: TsNode) returns (o: Outcome<ConvertError>)
      modifies this
      ensures Reflects(o, ListEffect(old(Tables()), node), Tables())
    {
      var outputList := LookupInputs(node.inputs);
      if outputList.Failure? {
        return Fail(outputList.error);
      }
      nameToNode := nameToNode[node.output := ListOf(outputList.value)];
      return Pass;
    }

    /** `convert_prim_TupleIndex` (`target` is `operator.getitem`) and
        `convert_prim_NumToTensor` (`target` is `aten.scalar_tensor`). */
    method ConvertCall(node: TsNode, target: string) returns (o: Outcome<ConvertError>)
      modifies this
      ensures Reflects(o, CallEffect(old(Tables()), node, target), Tables())
    {
      var args := LookupInputs(node.inputs);
      if args.Failure? {
        return Fail(args.error);
      }
      graph := graph + [Call(target, args.value, map[])];
      nameToNode := nameToNode[node.output := NodeRef(|graph| - 1)];
      return Pass;
    }

    /** `convert_aten__convolution`. */
    method ConvertAtenConvolution(node: TsNode) returns (o: Outcome<ConvertError>)
      modifies this
      ensures Reflects(o, ConvolutionEffect(old(Tables()), node), Tables())
    {
      var inv := GetArgsKwargs(node.inputs, ConvolutionArgs);
      if inv.Failure? {
        return Fail(inv.error);
      }
      graph := graph + [Call("aten.convolution.default", inv.value.args, inv.value.kwargs)];
      nameToNode := nameToNode[node.output := NodeRef(|graph| - 1)];
      return Pass;
    }

    /** `convert_aten_div`. */
    method ConvertAtenDiv(node: TsNode) returns (o: Outcome<ConvertError>)
      modifies this
      ensures Reflects(o, DivEffect(old(Tables()), node), Tables())
    {
      if node.schema.None? {
        return Fail(UnknownOperator(node.kind));
      }
      var schema := node.schema.value;
      var inv := GetArgsKwargs(node.inputs, schema.arguments);
      if inv.Failure? {
        return Fail(inv.error);
      }
      var args := inv.value.args;
      if schema.overload == "Tensor_mode" {
        if |args| < 2 {
          return Fail(IndexOutOfRange);
        }
        if !args[1].NodeRef? {
          return Fail(NoNameAttribute);
        }
        var k := args[1].index;
        if k < |graph| && graph[k].Placeholder? && graph[k].name in tensorConstants {
          var tensorConstant := tensorConstants[graph[k].name];
          if tensorConstant.numel == 1 {
            graph := graph + [Call("aten.div.Scalar_mode", args[1 := tensorConstant.item], inv.value.kwargs)];
            nameToNode := nameToNode[node.output := NodeRef(|graph| - 1)];
            return Pass;
          }
        }
      }
      o := ConvertAtenOp(node);
    }

    /** The block arguments of a `prim::If`: the names its blocks read that
        are bound here, each once. */
    method BlockArguments(names: seq<string>) returns (arguments: seq<string>)
      ensures arguments == Arguments(nameToNode, names)
    {
      arguments := [];
      var i := 0;
      while i < |names|
        invariant 0 <= i <= |names|
        invariant arguments == Arguments(nameToNode, names[..i])
      {
        assert names[..i + 1][..i] == names[..i];
        if names[i] in nameToNode && names[i] !in arguments {
          arguments := arguments + [names[i]];
        }
        i := i + 1;
      }
      assert names[..i] == names;
    }

    /** The loop of `convert_prim_if` over the node's blocks: each block's
        sub-module becomes the next subgraph, read back by a `get_attr`
        node. */
    method AddBlockSubgraphs(blocks: seq<Block>) returns (subgraphNodes: seq<Value>)
      modifies this
      ensures Tables() == AddBlocks(old(Tables()), blocks)
      ensures |subgraphNodes| == |blocks| && forall j :: 0 <= j < |blocks| ==> subgraphNodes[j] == NodeRef(|old(graph)| + j)
    {
      subgraphNodes := [];
      var i := 0;
      while i < |blocks|
        invariant 0 <= i <= |blocks|
        invariant Tables() == AddBlocks(old(Tables()), blocks[..i])
        invariant |subgraphNodes| == i && forall j :: 0 <= j < i ==> subgraphNodes[j] == NodeRef(|old(graph)| + j)
      {
        assert blocks[..i + 1][..i] == blocks[..i];
        var subgraphName := AddSubgraph(blocks[i].subgraph);
        graph := graph + [GetAttrNode(subgraphName)];
        subgraphNodes := subgraphNodes + [NodeRef(|graph| - 1)];
        i := i + 1;
      }
      assert blocks[..i] == blocks;
    }

    /** `convert_prim_if`, with the conversion of each block taken as
        given (the block's sub-module). */
    method ConvertPrimIf(node: TsNode) returns (o: Outcome<ConvertError>)
      modifies this
      ensures Reflects(o, IfEffect(old(Tables()), node), Tables())
    {
      if |node.inputs| != 1 {
        return Fail(AssertionFailed);
      }
      var cond := GetFxValue(node.inputs[0]);
      if cond.Failure? {
        return Fail(cond.error);
      }
      var arguments := BlockArguments(Flatten(node.blocks));
      var subgraphNodes := AddBlockSubgraphs(node.blocks);
      if |subgraphNodes| != 2 {
        return Fail(AssertionFailed);
      }
      var fxBlockArgs := BoundValues(nameToNode, arguments);
      graph := graph + [Call("torch.cond", [cond.value, subgraphNodes[0], subgraphNodes[1], ListOf(fxBlockArgs)], map[])];
      nameToNode := nameToNode[node.output := NodeRef(|graph| - 1)];
      return Pass;
    }

    /** `convert_as_noop`. */
    method ConvertAsNoop(node: TsNode) returns (o: Outcome<ConvertError>)
      modifies this
      ensures Reflects(o, NoopEffect(old(Tables()), node), Tables())
    {
      if node.schema.None? {
        return Fail(UnknownOperator(node.kind));
      }
      var inv := GetArgsKwargs(node.inputs, node.schema.value.arguments);
      if inv.Failure? {
        return Fail(inv.error);
      }
      if |inv.value.args| == 0 {
        return Fail(IndexOutOfRange);
      }
      nameToNode := nameToNode[node.output := inv.value.args[0]];
      return Pass;
    }

    /** `convert_node`. */
    method ConvertNode(node: TsNode) returns (o: Outcome<ConvertError>)
      modifies this
      ensures Reflects(o, Effect(old(Tables()), node), Tables())
    {
      var kind := node.kind;
      ghost var s := Tables();
      if kind == "prim::CreateObject" {
        assert Effect(s, node) == Success(s.(attributeMap := s.attributeMap[node.output := ""]));
        ConvertPrimCreateObject(node);
        o := Pass;
      } else if kind == "prim::Constant" {
        assert Effect(s, node) == ConstantEffect(s, node);
        o := ConvertPrimConstant(node);
      } else if kind == "prim::GetAttr" {
        assert Effect(s, node) == GetAttrEffect(s, node);
        o := ConvertPrimGetAttr(node);
      } else if kind == "prim::NumToTensor" {
        assert Effect(s, node) == CallEffect(s, node, "aten.scalar_tensor");
        o := ConvertCall(node, "aten.scalar_tensor");
      } else if kind in ["prim::ListConstruct", "prim::TupleConstruct"] {
        assert Effect(s, node) == ListEffect(s, node);
        o := ConvertPrimListConstruct(node);
      } else if kind == "prim::TupleIndex" {
        assert Effect(s, node) == CallEffect(s, node, "operator.getitem");
        o := ConvertCall(node, "operator.getitem");
      } else if kind == "aten::_convolution" {
        assert Effect(s, node) == ConvolutionEffect(s, node);
        o := ConvertAtenConvolution(node);
      } else if kind == "aten::div" {
        assert Effect(s, node) == DivEffect(s, node);
        o := ConvertAtenDiv(node);
      } else if kind == "prim::If" {
        assert Effect(s, node) == IfEffect(s, node);
        o := ConvertPrimIf(node);
      } else if kind == "aten::Bool" {
        assert Effect(s, node) == NoopEffect(s, node);
        o := ConvertAsNoop(node);
      } else if StartsWith(kind, "aten::") {
        assert Effect(s, node) == AtenOpEffect(s, node);
        o := ConvertAtenOp(node);
      } else {
        assert Effect(s, node) == Failure(UnsupportedNodeKind(kind));
        o := Fail(UnsupportedNodeKind(kind));
      }
    }

    /** `convert_graph_outputs`. */
    method ConvertGraphOutputs() returns (o: Outcome<ConvertError>)
      modifies this
      ensures Reflects(o, OutputsEffect(old(Tables()), tsGraph.outputs), Tables())
    {
      var outputs := tsGraph.outputs;
      var args: seq<Value> := [];
      var i := 0;
      while i < |outputs|
        invariant 0 <= i <= |outputs|
        invariant OutputValues(nameToNode, outputs[..i]) == Success(args)
        invariant Tables() == old(Tables()).(outputSpecs := old(outputSpecs) + OutputSpecs(outputs[..i]))
      {
        assert outputs[..i + 1][..i] == outputs[..i];
        var outputName := outputs[i];
        if outputName !in nameToNode {
          OutputValuesStuck(nameToNode, outputs, i);
          return Fail(OutputNotFound(outputName));
        }
        args := args + [nameToNode[outputName]];
        outputSpecs := outputSpecs + [OutputSpec(outputName, outputName)];
        i := i + 1;
      }
      assert outputs[..i] == outputs;
      assert OutputValues(old(nameToNode), outputs) == Success(args);
      if |args| == 0 {
        return Fail(IndexOutOfRange);
      }
      graph := graph + [Output(args[0])];
      return Pass;
    }

    /** `convert`, up to building the graph module. */
    method Convert() returns (o: Outcome<ConvertError>)
      modifies this
      ensures Reflects(o, ConvertFrom(old(Tables()), paramNames, bufferNames, tsGraph), Tables())
    {
      ConvertGraphInputs();
      ghost var start := Tables();
      var nodes := tsGraph.nodes;
      var i := 0;
      while i < |nodes|
        invariant 0 <= i <= |nodes|
        invariant ConvertNodes(start, nodes[..i]) == Success(Tables())
      {
        assert nodes[..i + 1][..i] == nodes[..i];
        o := ConvertNode(nodes[i]);
        if o.Fail? {
          NodesStuck(start, nodes, i + 1);
          return;
        }
        i := i + 1;
      }
      assert nodes[..i] == nodes;
      o := ConvertGraphOutputs();
    }
  }

  /** Once a node fails, the conversion fails with its error. */
  lemma {:induction false} NodesStuck(s: State, nodes: seq<TsNode>, k: nat)
    requires 0 < k <= |nodes| && ConvertNodes(s, nodes[..k]).Failure?
    ensures ConvertNodes(s, nodes) == ConvertNodes(s, nodes[..k])
    decreases |nodes| - k
  {
    if k < |nodes| {
      assert nodes[..k + 1][..k] == nodes[..k];
      NodesStuck(s, nodes, k + 1);
    } else {
      assert nodes[..k] == nodes;
    }
  }
}
