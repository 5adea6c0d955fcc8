/** The knowledge-graph script of src/knowledge_graph.py run end to end:
    `extract_graph_from_text` followed by `construct_knowledge_graph`. The
    script is run twice; the first run misses the cache and the second hits
    it. */
module GraphPipeline {
  import opened Wrappers
  import opened GraphDocs
  import opened GraphCache
  import opened GraphStore

  /** A fragment read back from the cache sends the same Cypher statements
      as the fragment that was saved: the merge uses only node ids and types
      and relationship endpoint ids and types, and these survive the cache,
      although the endpoint types and properties do not. */
  lemma LoadedMergesAlike(nodes: seq<Node>, relationships: seq<Relationship>)
    ensures var loaded := Load(Serialize(nodes, relationships));
      Statements(loaded.nodes, loaded.relationships) == Statements(nodes, relationships)
  {
    var loaded := Load(Serialize(nodes, relationships));
    LoadNodes(nodes, relationships);
    LoadRelationships(nodes, relationships);
    assert RelationshipStatements(loaded.relationships) == RelationshipStatements(relationships);
  }

  /** Running the script twice, a cache miss and then a cache hit, leaves the
      store that one run leaves, whatever the second extraction would have
      produced. */
  lemma TwoRuns(store: Store, first: Fragment, second: Fragment)
    ensures var f1 := Extracted(None, first);
      var f2 := Extracted(CacheAfter(None, first), second);
      var once := RunAll(store, Statements(f1.nodes, f1.relationships));
      RunAll(once, Statements(f2.nodes, f2.relationships)) == once
  {
    var once := RunAll(store, Statements(first.nodes, first.relationships));
    LoadedMergesAlike(first.nodes, first.relationships);
    MergeIdempotent(store, first.nodes, first.relationships);
  }

  /** The end-to-end scenario: a fragment with nodes A (a Person) and B (an
      Organization) and one WORKS_AT relationship from A to B, the script
      run twice on an empty database. The first run extracts and merges it;
      the second reads it back from the cache and merges it again. The
      database holds two entities and one edge. */
  lemma WorksAtTwice(second: Fragment)
    ensures var a := Node("A", "Person", map[]);
      var b := Node("B", "Organization", map[]);
      var first := Fragment([a, b], [Relationship(a, b, "WORKS_AT", map[])]);
      var f1 := Extracted(None, first);
      var f2 := Extracted(CacheAfter(None, first), second);
      var once := RunAll(Store({}, {}), Statements(f1.nodes, f1.relationships));
      var ka, kb := EntityKey("A", "A", "Person"), EntityKey("B", "B", "Organization");
      RunAll(once, Statements(f2.nodes, f2.relationships))
        == Store({ka, kb}, {Edge(ka, kb, "WORKS_AT")})
  {
    var a := Node("A", "Person", map[]);
    var b := Node("B", "Organization", map[]);
    var works := Relationship(a, b, "WORKS_AT", map[]);
    var first := Fragment([a, b], [works]);
    var ka, kb := EntityKey("A", "A", "Person"), EntityKey("B", "B", "Organization");
    TwoRuns(Store({}, {}), first, second);
    MergeClosedForm(Store({}, {}), [a, b], [works]);
    ScenarioKeys(a, b);
    OneWorksAtEdge(ka, kb, works);
    assert {} + {ka, kb} == {ka, kb};
  }

  /** A single relationship between two entities with distinct ids asks for
      exactly one edge. */
  lemma OneWorksAtEdge(ka: EntityKey, kb: EntityKey, works: Relationship)
    requires ka.id == works.source.id && kb.id == works.target.id && ka.id != kb.id
    ensures RelationshipEdges({ka, kb}, [works]) == {Edge(ka, kb, works.kind)}
  {
    var m := Matches({ka, kb}, works.source.id, works.target.id, works.kind);
    assert m == {Edge(ka, kb, works.kind)};
    assert [works][..0] == [];
    assert RelationshipEdges({ka, kb}, [works]) == {} + m;
  }
}
