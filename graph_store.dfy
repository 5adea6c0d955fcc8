/** `construct_knowledge_graph` of src/knowledge_graph.py: every node is
    merged as an `Entity` keyed by (id, name = id, type), then every
    relationship matches its endpoints by id and merges a `RELATIONSHIP`
    edge carrying its type. The graph database is an in-memory store of
    entities and edges, and each Cypher statement is its effect on that
    store. */
module GraphStore {
  import opened GraphDocs

  // ---------------------------------------------------------------------
  // The store and the statements
  // ---------------------------------------------------------------------

  /** An `Entity` node, identified by the three properties its MERGE names. */
  datatype EntityKey = EntityKey(id: string, name: string, kind: string)

  /** A `RELATIONSHIP` edge with its `type` property. */
  datatype Edge = Edge(from: EntityKey, to: EntityKey, kind: string)

  /** The graph database. */
  datatype Store = Store(entities: set<EntityKey>, edges: set<Edge>)

  /** The two Cypher statements the merge issues. */
  datatype Statement =
    | MergeEntity(key: EntityKey)
    | MergeRelationship(fromId: string, toId: string, kind: string)

  /** The edges `MATCH (a:Entity {id: $from_id}), (b:Entity {id: $to_id})
      MERGE (a)-[:RELATIONSHIP {type: $type}]->(b)` asks for: one per pair of
      matching entities, none when either side matches nothing. */
  function Matches(entities: set<EntityKey>, fromId: string, toId: string, kind: string): set<Edge> {
    set a, b | a in entities && b in entities && a.id == fromId && b.id == toId :: Edge(a, b, kind)
  }

  /** The effect of one statement: MERGE creates what is missing and leaves
      what exists. */
  function Run(store: Store, statement: Statement): (after: Store)
    ensures store.entities <= after.entities && store.edges <= after.edges
  {
    match statement
    case MergeEntity(key) => Store(store.entities + {key}, store.edges)
    case MergeRelationship(fromId, toId, kind) =>
      Store(store.entities, store.edges + Matches(store.entities, fromId, toId, kind))
  }

  /** The statements run in order. */
  function RunAll(store: Store, statements: seq<Statement>): Store
    decreases |statements|
  {
    if statements == [] then store
    else Run(RunAll(store, statements[..|statements| - 1]), statements[|statements| - 1])
  }

  /** The MERGE of one node: id and name are both the node id. */
  function NodeStatement(n: Node): Statement {
    MergeEntity(EntityKey(n.id, n.id, n.kind))
  }

  /** The MATCH-MERGE of one relationship: only the endpoint ids are used. */
  function RelationshipStatement(r: Relationship): Statement {
    MergeRelationship(r.source.id, r.target.id, r.kind)
  }

  /** What the node loop sends. */
  function NodeStatements(nodes: seq<Node>): seq<Statement> {
    seq(|nodes|, i requires 0 <= i < |nodes| => NodeStatement(nodes[i]))
  }

  /** What the relationship loop sends. */
  function RelationshipStatements(relationships: seq<Relationship>): seq<Statement> {
    seq(|relationships|, i requires 0 <= i < |relationships| => RelationshipStatement(relationships[i]))
  }

  /** What `construct_knowledge_graph` sends: the node loop, then the
      relationship loop. */
  function Statements(nodes: seq<Node>, relationships: seq<Relationship>): (statements: seq<Statement>)
    ensures |statements| == |nodes| + |relationships|
  {
    NodeStatements(nodes) + RelationshipStatements(relationships)
  }

  // ---------------------------------------------------------------------
  // The merged store in closed form
  // ---------------------------------------------------------------------

  function NodeKeys(nodes: seq<Node>): set<EntityKey> {
    set i | 0 <= i < |nodes| :: EntityKey(nodes[i].id, nodes[i].id, nodes[i].kind)
  }

  /** The edges the relationships ask for among `entities`. */
  function RelationshipEdges(entities: set<EntityKey>, relationships: seq<Relationship>): set<Edge>
    decreases |relationships|
  {
    if relationships == [] then {}
    else
      var last := relationships[|relationships| - 1];
      RelationshipEdges(entities, relationships[..|relationships| - 1])
        + Matches(entities, last.source.id, last.target.id, last.kind)
  }

  /** A relationship gets an edge between every pair of entities carrying
      its endpoint ids. */
  lemma {:induction false} RelationshipEdgesHas(entities: set<EntityKey>, relationships: seq<Relationship>,
                                                r: nat, a: EntityKey, b: EntityKey)
    requires r < |relationships| && a in entities && b in entities
    requires a.id == relationships[r].source.id && b.id == relationships[r].target.id
    ensures Edge(a, b, relationships[r].kind) in RelationshipEdges(entities, relationships)
    decreases |relationships|
  {
    var init := relationships[..|relationships| - 1];
    if r < |init| {
      assert init[r] == relationships[r];
      RelationshipEdgesHas(entities, init, r, a, b);
    }
  }

  /** Every edge the relationships ask for joins two of the entities. */
  lemma {:induction false} RelationshipEdgesWithin(entities: set<EntityKey>, relationships: seq<Relationship>)
    ensures forall e :: e in RelationshipEdges(entities, relationships) ==> e.from in entities && e.to in entities
    decreases |relationships|
  {
    if relationships != [] {
      RelationshipEdgesWithin(entities, relationships[..|relationships| - 1]);
    }
  }

  /** The store a merge leaves: the node keys added, then the edges of every
      relationship among all the entities then present. */
  function Merged(store: Store, nodes: seq<Node>, relationships: seq<Relationship>): Store {
    var entities := store.entities + NodeKeys(nodes);
    Store(entities, store.edges + RelationshipEdges(entities, relationships))
  }

  /** The node loop adds exactly the node keys. */
  lemma {:induction false} RunNodes(store: Store, nodes: seq<Node>)
    ensures RunAll(store, NodeStatements(nodes))
      == Store(store.entities + NodeKeys(nodes), store.edges)
    decreases |nodes|
  {
    var statements := NodeStatements(nodes);
    if nodes != [] {
      var init := nodes[..|nodes| - 1];
      RunNodes(store, init);
      assert statements[..|statements| - 1] == NodeStatements(init);
      var last := nodes[|nodes| - 1];
      assert nodes == init + [last];
      NodeKeysSnoc(init, last);
    }
  }

  /** One more node, one more key. */
  lemma NodeKeysSnoc(init: seq<Node>, last: Node)
    ensures NodeKeys(init + [last]) == NodeKeys(init) + {EntityKey(last.id, last.id, last.kind)}
  {
    var nodes := init + [last];
    forall k | k in NodeKeys(nodes) ensures k in NodeKeys(init) + {EntityKey(last.id, last.id, last.kind)} {
      var i :| 0 <= i < |nodes| && k == EntityKey(nodes[i].id, nodes[i].id, nodes[i].kind);
      if i < |init| {
        assert nodes[i] == init[i];
      }
    }
    forall k | k in NodeKeys(init) ensures k in NodeKeys(nodes) {
      var i :| 0 <= i < |init| && k == EntityKey(init[i].id, init[i].id, init[i].kind);
      assert init[i] == nodes[i];
    }
    assert nodes[|init|] == last;
  }

  /** The relationship loop leaves the entities and adds the edges of every
      relationship among them. */
  lemma {:induction false} RunRelationships(store: Store, relationships: seq<Relationship>)
    ensures RunAll(store, RelationshipStatements(relationships))
      == Store(store.entities, store.edges + RelationshipEdges(store.entities, relationships))
    decreases |relationships|
  {
    var statements := RelationshipStatements(relationships);
    if relationships != [] {
      var init := relationships[..|relationships| - 1];
      var last := relationships[|relationships| - 1];
      var before := RunAll(store, RelationshipStatements(init));
      RunRelationships(store, init);
      RelationshipStatementsInit(relationships);
      assert RunAll(store, statements) == Run(before, RelationshipStatement(last));
    }
  }

  lemma RelationshipStatementsInit(relationships: seq<Relationship>)
    requires relationships != []
    ensures var statements := RelationshipStatements(relationships);
      statements[..|statements| - 1] == RelationshipStatements(relationships[..|relationships| - 1])
      && statements[|statements| - 1] == RelationshipStatement(relationships[|relationships| - 1])
  {
  }

  /** Running a sequence of statements in two parts is running the first
      part, then the second. */
  lemma {:induction false} RunAllAppend(store: Store, first: seq<Statement>, second: seq<Statement>)
    ensures RunAll(store, first + second) == RunAll(RunAll(store, first), second)
    decreases |second|
  {
    if second == [] {
      assert first + second == first;
    } else {
      var init := second[..|second| - 1];
      RunAllAppend(store, first, init);
      assert (first + second)[..|first + second| - 1] == first + init;
    }
  }

  /** `construct_knowledge_graph` leaves exactly the merged store. */
  lemma MergeClosedForm(store: Store, nodes: seq<Node>, relationships: seq<Relationship>)
    ensures RunAll(store, Statements(nodes, relationships)) == Merged(store, nodes, relationships)
  {
    RunAllAppend(store, NodeStatements(nodes), RelationshipStatements(relationships));
    RunNodes(store, nodes);
    RunRelationships(Store(store.entities + NodeKeys(nodes), store.edges), relationships);
  }

  // ---------------------------------------------------------------------
  // Properties of the merge
  // ---------------------------------------------------------------------

  /** After the merge the store holds the key (id, id, type) of every node,
      and everything it held before. */
  lemma MergeContainsKeys(store: Store, nodes: seq<Node>, relationships: seq<Relationship>)
    ensures var after := RunAll(store, Statements(nodes, relationships));
      store.entities <= after.entities && store.edges <= after.edges
      && forall i :: 0 <= i < |nodes| ==> EntityKey(nodes[i].id, nodes[i].id, nodes[i].kind) in after.entities
  {
    MergeClosedForm(store, nodes, relationships);
  }

  /** Merging the same fragment twice leaves the store of merging it once. */
  lemma MergeIdempotent(store: Store, nodes: seq<Node>, relationships: seq<Relationship>)
    ensures var once := RunAll(store, Statements(nodes, relationships));
      RunAll(once, Statements(nodes, relationships)) == once
  {
    var once := RunAll(store, Statements(nodes, relationships));
    MergeClosedForm(store, nodes, relationships);
    MergeClosedForm(once, nodes, relationships);
    assert once.entities + NodeKeys(nodes) == once.entities;
  }

  /** Every node statement comes before every relationship statement. */
  lemma NodesBeforeRelationships(nodes: seq<Node>, relationships: seq<Relationship>, i: nat, j: nat)
    requires i < |Statements(nodes, relationships)| && j < |Statements(nodes, relationships)|
    requires Statements(nodes, relationships)[i].MergeEntity?
    requires Statements(nodes, relationships)[j].MergeRelationship?
    ensures i < j
  {
  }

  /** Because the nodes are merged first, a relationship between two nodes
      of the same fragment always gets its edge, whatever the order of the
      nodes and the relationships. */
  lemma FragmentEdgesPresent(store: Store, nodes: seq<Node>, relationships: seq<Relationship>,
                             r: nat, s: nat, t: nat)
    requires r < |relationships| && s < |nodes| && t < |nodes|
    requires nodes[s].id == relationships[r].source.id && nodes[t].id == relationships[r].target.id
    ensures Edge(EntityKey(nodes[s].id, nodes[s].id, nodes[s].kind),
                 EntityKey(nodes[t].id, nodes[t].id, nodes[t].kind),
                 relationships[r].kind) in RunAll(store, Statements(nodes, relationships)).edges
  {
    MergeClosedForm(store, nodes, relationships);
    var a := EntityKey(nodes[s].id, nodes[s].id, nodes[s].kind);
    var b := EntityKey(nodes[t].id, nodes[t].id, nodes[t].kind);
    assert a in NodeKeys(nodes) && b in NodeKeys(nodes);
    RelationshipEdgesHas(store.entities + NodeKeys(nodes), relationships, r, a, b);
  }

  /** Run the other way round, relationships before nodes, any fragment on
      an empty store would get no edge at all: every MATCH finds nothing. */
  lemma RelationshipsFirstLoseEdges(nodes: seq<Node>, relationships: seq<Relationship>)
    ensures RunAll(Store({}, {}), RelationshipStatements(relationships) + NodeStatements(nodes)).edges == {}
  {
    var empty := Store({}, {});
    RunAllAppend(empty, RelationshipStatements(relationships), NodeStatements(nodes));
    RunRelationships(empty, relationships);
    RelationshipEdgesWithin({}, relationships);
    RunNodes(RunAll(empty, RelationshipStatements(relationships)), nodes);
  }

  /** The edges of two runs of relationships are the edges of each. */
  lemma {:induction false} RelationshipEdgesAppend(entities: set<EntityKey>, a: seq<Relationship>, b: seq<Relationship>)
    ensures RelationshipEdges(entities, a + b) == RelationshipEdges(entities, a) + RelationshipEdges(entities, b)
    decreases |b|
  {
    if b == [] {
      assert a + b == a;
    } else {
      var init := b[..|b| - 1];
      RelationshipEdgesAppend(entities, a, init);
      assert (a + b)[..|a + b| - 1] == a + init;
      assert (a + b)[|a + b| - 1] == b[|b| - 1];
    }
  }

  /** A relationship one of whose endpoint ids names no entity after the
      node loop adds nothing, wherever it stands among the relationships,
      and raises no error. */
  lemma DanglingSkipped(store: Store, nodes: seq<Node>, pre: seq<Relationship>, dangling: Relationship,
                        post: seq<Relationship>)
    requires var entities := store.entities + NodeKeys(nodes);
      (forall e :: e in entities ==> e.id != dangling.source.id)
      || (forall e :: e in entities ==> e.id != dangling.target.id)
    ensures RunAll(store, Statements(nodes, pre + [dangling] + post))
         == RunAll(store, Statements(nodes, pre + post))
  {
    var entities := store.entities + NodeKeys(nodes);
    MergeClosedForm(store, nodes, pre + [dangling] + post);
    MergeClosedForm(store, nodes, pre + post);
    RelationshipEdgesAppend(entities, pre + [dangling], post);
    RelationshipEdgesAppend(entities, pre, [dangling]);
    RelationshipEdgesAppend(entities, pre, post);
    assert [dangling][..0] == [];
    assert Matches(entities, dangling.source.id, dangling.target.id, dangling.kind) == {};
  }

  /** MERGE never duplicates: running a statement a second time changes
      nothing. */
  lemma RunTwice(store: Store, statement: Statement)
    ensures Run(Run(store, statement), statement) == Run(store, statement)
  {
  }

  /** Every edge joins two stored entities. */
  ghost predicate Closed(store: Store) {
    forall e :: e in store.edges ==> e.from in store.entities && e.to in store.entities
  }

  /** A merge keeps every edge between stored entities. */
  lemma MergeKeepsClosed(store: Store, nodes: seq<Node>, relationships: seq<Relationship>)
    requires Closed(store)
    ensures Closed(RunAll(store, Statements(nodes, relationships)))
  {
    MergeClosedForm(store, nodes, relationships);
    RelationshipEdgesWithin(store.entities + NodeKeys(nodes), relationships);
  }

  /** The end-to-end scenario: two nodes and the same relationship twice, on
      an empty store, give two entities and one edge. */
  lemma WorksAtScenario()
    ensures var a := Node("A", "Person", map[]);
      var b := Node("B", "Organization", map[]);
      var works := Relationship(a, b, "WORKS_AT", map[]);
      RunAll(Store({}, {}), Statements([a, b], [works, works]))
        == Store({EntityKey("A", "A", "Person"), EntityKey("B", "B", "Organization")},
                 {Edge(EntityKey("A", "A", "Person"), EntityKey("B", "B", "Organization"), "WORKS_AT")})
  {
    var a := Node("A", "Person", map[]);
    var b := Node("B", "Organization", map[]);
    var works := Relationship(a, b, "WORKS_AT", map[]);
    var ka, kb := EntityKey("A", "A", "Person"), EntityKey("B", "B", "Organization");
    MergeClosedForm(Store({}, {}), [a, b], [works, works]);
    ScenarioKeys(a, b);
    ScenarioEdges(ka, kb, works);
    assert {} + {ka, kb} == {ka, kb};
  }

  lemma ScenarioKeys(a: Node, b: Node)
    ensures NodeKeys([a, b]) == {EntityKey(a.id, a.id, a.kind), EntityKey(b.id, b.id, b.kind)}
  {
    assert [a, b][0] == a && [a, b][1] == b;
  }

  lemma ScenarioEdges(ka: EntityKey, kb: EntityKey, works: Relationship)
    requires ka.id == works.source.id && kb.id == works.target.id && ka.id != kb.id
    ensures RelationshipEdges({ka, kb}, [works, works]) == {Edge(ka, kb, works.kind)}
  {
    var m := Matches({ka, kb}, works.source.id, works.target.id, works.kind);
    assert m == {Edge(ka, kb, works.kind)};
    assert [works, works][..1] == [works] && [works][..0] == [];
    assert RelationshipEdges({ka, kb}, [works]) == {} + m;
    assert RelationshipEdges({ka, kb}, [works, works]) == RelationshipEdges({ka, kb}, [works]) + m;
  }

  /** Running one statement more. */
  lemma RunAllStep(store: Store, sent: seq<Statement>, statements: seq<Statement>, i: nat)
    requires i < |statements|
    ensures sent + statements[..i + 1] == sent + statements[..i] + [statements[i]]
    ensures RunAll(store, statements[..i + 1]) == Run(RunAll(store, statements[..i]), statements[i])
  {
    assert statements[..i + 1][..i] == statements[..i];
  }

  // ---------------------------------------------------------------------
  // The session
  // ---------------------------------------------------------------------

  /** A database session: the store and the statements sent so far. */
  class GraphSession {
    var store: Store
    var sent: seq<Statement>

    constructor (store: Store)
      ensures this.store == store && sent == []
    {
      this.store := store;
      sent := [];
    }

    /** `session.run`: apply one statement. */
    method RunStatement(statement: Statement)
      modifies this
      ensures store == Run(old(store), statement)
      ensures sent == old(sent) + [statement]
    {
      store := Run(store, statement);
      sent := sent + [statement];
    }

    /** `construct_knowledge_graph`: the node loop, then the relationship loop. */
    method ConstructKnowledgeGraph(nodes: seq<Node>, relationships: seq<Relationship>)
      modifies this
      ensures sent == old(sent) + Statements(nodes, relationships)
      ensures store == RunAll(old(store), Statements(nodes, relationships))
    {
      MergeNodes(nodes);
      MergeRelationships(relationships);
      RunAllAppend(old(store), NodeStatements(nodes), RelationshipStatements(relationships));
      assert sent == old(sent) + (NodeStatements(nodes) + RelationshipStatements(relationships));
    }

    /** The first loop of `construct_knowledge_graph`: one entity MERGE per
        node, in order. */
    method MergeNodes(nodes: seq<Node>)
      modifies this
      ensures sent == old(sent) + NodeStatements(nodes)
      ensures store == RunAll(old(store), NodeStatements(nodes))
    {
      var i := 0;
      while i < |nodes|
        invariant 0 <= i <= |nodes|
        invariant sent == old(sent) + NodeStatements(nodes)[..i]
        invariant store == RunAll(old(store), NodeStatements(nodes)[..i])
      {
        RunStatement(NodeStatement(nodes[i]));
        RunAllStep(old(store), old(sent), NodeStatements(nodes), i);
        i := i + 1;
      }
      assert NodeStatements(nodes)[..i] == NodeStatements(nodes);
    }

    /** The second loop of `construct_knowledge_graph`: one relationship
        MERGE per relationship, in order. */
    method MergeRelationships(relationships: seq<Relationship>)
      modifies this
      ensures sent == old(sent) + RelationshipStatements(relationships)
      ensures store == RunAll(old(store), RelationshipStatements(relationships))
    {
      var j := 0;
      while j < |relationships|
        invariant 0 <= j <= |relationships|
        invariant sent == old(sent) + RelationshipStatements(relationships)[..j]
        invariant store == RunAll(old(store), RelationshipStatements(relationships)[..j])
      {
        RunStatement(RelationshipStatement(relationships[j]));
        RunAllStep(old(store), old(sent), RelationshipStatements(relationships), j);
        j := j + 1;
      }
      assert RelationshipStatements(relationships)[..j] == RelationshipStatements(relationships);
    }
  }
}
