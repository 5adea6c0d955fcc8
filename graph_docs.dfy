/** The graph fragments an extractor returns: nodes and relationships with
    their property maps, as in the graph documents of the LangChain graph
    library used by src/knowledge_graph.py. `Relationship` is that library's
    graph-document relationship. src/knowledge_graph.py imports its `Node`
    from `langchain_core.runnables.graph`, a different class; the model reads
    every node, the cache-rebuilt ones included, as the graph-document node
    (id, type, properties) the extractor produced. */
module GraphDocs {

  /** A property value: the JSON scalars a property map carries. */
  datatype Value = Null | Bool(b: bool) | Int(i: int) | Str(s: string)

  type Properties = map<string, Value>

  /** A node: an id, a type and its properties. */
  datatype Node = Node(id: string, kind: string, properties: Properties)

  /** A directed relationship between two nodes, with a type and properties. */
  datatype Relationship = Relationship(source: Node, target: Node, kind: string, properties: Properties)

  /** The nodes and relationships of one extracted fragment, in order. */
  datatype Fragment = Fragment(nodes: seq<Node>, relationships: seq<Relationship>)

  /** A node known by its id only: type `""` and no properties. */
  function Bare(id: string): (n: Node)
    ensures n.id == id && n.kind == "" && n.properties == map[]
  {
    Node(id, "", map[])
  }
}
