/** ONNX graphs and what they compute, over arbitrary operators. */
module OnnxGraph {
  import opened BitStream

  /** The element types of the source that a weight file can hold, and the others. */
  datatype Dtype =
    | Bool | Uint8 | Int8 | Uint16 | Int16 | Uint32 | Int32 | Uint64 | Int64 | Float16 | Bfloat16 | Float | Double
    | OtherType(code: int)

  /** A tensor: its element type, its shape, and its elements as bytes. */
  datatype Tensor = Tensor(dtype: Dtype, dims: seq<nat>, data: seq<Byte>)

  datatype Initializer = Initializer(name: string, tensor: Tensor)

  datatype Node = Node(domain: string, op: string, inputs: seq<string>, outputs: seq<string>)

  /** A graph input: its name and the type and shape it is declared with. */
  datatype ValueInfo = ValueInfo(name: string, dtype: Dtype, dims: seq<nat>)

  datatype Graph = Graph(nodes: seq<Node>, initializers: seq<Initializer>, inputs: seq<ValueInfo>, outputs: seq<string>)

  /** The tensors in scope, by name. */
  type Scope = map<string, Tensor>

  /** The initializers by name; of two with the same name the later counts. */
  function InitializerMap(inits: seq<Initializer>): Scope {
    if inits == [] then map[]
    else InitializerMap(inits[..|inits| - 1])[inits[|inits| - 1].name := inits[|inits| - 1].tensor]
  }

  function InputNames(inputs: seq<ValueInfo>): set<string> {
    set i | 0 <= i < |inputs| :: inputs[i].name
  }

  /** The scope a graph starts from: its initializers, replaced by the tensors bound to its inputs. */
  function InitialScope(g: Graph, bound: Scope): Scope {
    InitializerMap(g.initializers) + map n | n in bound && n in InputNames(g.inputs) :: bound[n]
  }

  /** The meaning of operators: what a node adds to the scope it runs in. */
  type Operators = (Node, Scope) -> Scope

  function Run(nodes: seq<Node>, scope: Scope, ops: Operators): Scope
    decreases |nodes|
  {
    if nodes == [] then scope else Run(nodes[1..], scope + ops(nodes[0], scope), ops)
  }

  /** The outputs of a graph, those that get a value. */
  function Outputs(g: Graph, bound: Scope, ops: Operators): Scope {
    var scope := Run(g.nodes, InitialScope(g, bound), ops);
    map n | n in g.outputs && n in scope :: scope[n]
  }

}
