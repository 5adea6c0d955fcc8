/** The graph cache of src/knowledge_graph.py: `save_graph_to_cache`
    serialises a fragment, `load_cached_graph` and the cache-hit branch of
    `extract_graph_from_text` rebuild it, and `extract_graph_from_text`
    calls the extractor only when there is no cache. The cache is a single
    JSON file; here it is an optional value, and the JSON text itself is not
    modelled. */
module GraphCache {
  import opened Wrappers
  import opened GraphDocs

  // ---------------------------------------------------------------------
  // The cache contents
  // ---------------------------------------------------------------------

  /** `{"id", "type", "properties"}` for a node. */
  datatype NodeRecord = NodeRecord(id: string, kind: string, properties: Properties)

  /** `{"source_id", "target_id", "type", "properties"}` for a relationship;
      the properties entry may be missing from a cache file. */
  datatype RelRecord = RelRecord(sourceId: string, targetId: string, kind: string,
                                 properties: Option<Properties>)

  /** `{"nodes": [...], "relationships": [...]}`. */
  datatype CacheData = CacheData(nodes: seq<NodeRecord>, relationships: seq<RelRecord>)

  function NodeToRecord(n: Node): NodeRecord {
    NodeRecord(n.id, n.kind, n.properties)
  }

  function RelToRecord(r: Relationship): RelRecord {
    RelRecord(r.source.id, r.target.id, r.kind, Some(r.properties))
  }

  /** The `graph_data` that `save_graph_to_cache` writes: one record per node
      and one per relationship, in order. */
  function Serialize(nodes: seq<Node>, relationships: seq<Relationship>): (data: CacheData)
    ensures |data.nodes| == |nodes| && |data.relationships| == |relationships|
  {
    CacheData(seq(|nodes|, i requires 0 <= i < |nodes| => NodeToRecord(nodes[i])),
              seq(|relationships|, i requires 0 <= i < |relationships| => RelToRecord(relationships[i])))
  }

  /** `Node(**node_data)`, read as rebuilding the graph-document node that
      was saved (see the note on `Node` in GraphDocs). */
  function RecordToNode(r: NodeRecord): Node {
    Node(r.id, r.kind, r.properties)
  }

  /** The relationship rebuilt from a record: its endpoints are bare nodes
      and missing properties read as `{}`. */
  function RecordToRel(r: RelRecord): Relationship {
    Relationship(Bare(r.sourceId), Bare(r.targetId), r.kind, r.properties.GetOr(map[]))
  }

  /** The cache-hit branch of `extract_graph_from_text`: the fragment rebuilt
      from the cache contents. */
  function Load(data: CacheData): (f: Fragment)
    ensures |f.nodes| == |data.nodes| && |f.relationships| == |data.relationships|
  {
    Fragment(seq(|data.nodes|, i requires 0 <= i < |data.nodes| => RecordToNode(data.nodes[i])),
             seq(|data.relationships|, i requires 0 <= i < |data.relationships| =>
               RecordToRel(data.relationships[i])))
  }

  // ---------------------------------------------------------------------
  // Round trips
  // ---------------------------------------------------------------------

  /** Serialising keeps one record per node and per relationship, in order,
      holding exactly the saved fields. */
  lemma SerializeRecords(nodes: seq<Node>, relationships: seq<Relationship>)
    ensures var data := Serialize(nodes, relationships);
      |data.nodes| == |nodes| && |data.relationships| == |relationships|
      && (forall i :: 0 <= i < |nodes| ==>
            data.nodes[i].id == nodes[i].id && data.nodes[i].kind == nodes[i].kind
            && data.nodes[i].properties == nodes[i].properties)
      && (forall i :: 0 <= i < |relationships| ==>
            data.relationships[i].sourceId == relationships[i].source.id
            && data.relationships[i].targetId == relationships[i].target.id
            && data.relationships[i].kind == relationships[i].kind
            && data.relationships[i].properties == Some(relationships[i].properties))
  {
  }

  /** Loading what was saved gives back the nodes exactly. */
  lemma LoadNodes(nodes: seq<Node>, relationships: seq<Relationship>)
    ensures Load(Serialize(nodes, relationships)).nodes == nodes
  {
    var loaded := Load(Serialize(nodes, relationships)).nodes;
    assert |loaded| == |nodes|;
    forall i | 0 <= i < |nodes| ensures loaded[i] == nodes[i] {
      assert RecordToNode(NodeToRecord(nodes[i])) == nodes[i];
    }
  }

  /** Loading what was saved gives back each relationship's endpoint ids,
      type and properties; its endpoints come back bare. */
  lemma LoadRelationships(nodes: seq<Node>, relationships: seq<Relationship>)
    ensures var loaded := Load(Serialize(nodes, relationships)).relationships;
      |loaded| == |relationships|
      && forall i :: 0 <= i < |relationships| ==>
        loaded[i] == Relationship(Bare(relationships[i].source.id), Bare(relationships[i].target.id),
                                  relationships[i].kind, relationships[i].properties)
  {
  }

  /** A relationship survives the round trip exactly when both its endpoints
      are bare: the endpoint types and properties are not saved. */
  lemma RelationshipRoundTrip(nodes: seq<Node>, relationships: seq<Relationship>)
    ensures Load(Serialize(nodes, relationships)).relationships == relationships
      <==> forall i :: 0 <= i < |relationships| ==>
             relationships[i].source == Bare(relationships[i].source.id)
             && relationships[i].target == Bare(relationships[i].target.id)
  {
    var loaded := Load(Serialize(nodes, relationships)).relationships;
    LoadRelationships(nodes, relationships);
    if loaded == relationships {
      forall i | 0 <= i < |relationships|
        ensures relationships[i].source == Bare(relationships[i].source.id)
        ensures relationships[i].target == Bare(relationships[i].target.id)
      {
        assert loaded[i] == relationships[i];
      }
    }
  }

  /** After one round trip the saved contents are stable: saving what was
      loaded writes the same cache again. */
  lemma SerializeLoadSerialize(nodes: seq<Node>, relationships: seq<Relationship>)
    ensures var data := Serialize(nodes, relationships);
      Serialize(Load(data).nodes, Load(data).relationships) == data
  {
    var data := Serialize(nodes, relationships);
    var again := Serialize(Load(data).nodes, Load(data).relationships);
    LoadNodes(nodes, relationships);
    LoadRelationships(nodes, relationships);
    assert again.nodes == data.nodes;
    forall i | 0 <= i < |relationships| ensures again.relationships[i] == data.relationships[i] {
    }
    assert again.relationships == data.relationships;
  }

  // ---------------------------------------------------------------------
  // Cache or extract
  // ---------------------------------------------------------------------

  /** What `extract_graph_from_text` returns: the cached fragment when there
      is a cache, else the fragment the extractor produced. */
  function Extracted(cache: Option<CacheData>, produced: Fragment): Fragment {
    if cache.Some? then Load(cache.value) else produced
  }

  /** The cache after `extract_graph_from_text`: unchanged on a hit, the
      produced fragment on a miss. */
  function CacheAfter(cache: Option<CacheData>, produced: Fragment): (after: Option<CacheData>)
    ensures after.Some?
  {
    if cache.Some? then cache else Some(Serialize(produced.nodes, produced.relationships))
  }

  /** A miss returns the produced nodes and relationships unchanged, and the
      cache then holds them. */
  lemma MissReturnsProduced(produced: Fragment)
    ensures Extracted(None, produced) == produced
    ensures CacheAfter(None, produced) == Some(Serialize(produced.nodes, produced.relationships))
    ensures Load(CacheAfter(None, produced).value).nodes == produced.nodes
  {
    LoadNodes(produced.nodes, produced.relationships);
  }

  /** Once an extraction has run, every later one hits the cache: whatever
      its text and whatever the extractor would produce, it returns the
      nodes of the first extraction, the first relationships with bare
      endpoints, and leaves the cache as it is. */
  lemma SecondExtractionHits(cache: Option<CacheData>, first: Fragment, second: Fragment)
    ensures var c1 := CacheAfter(cache, first);
      CacheAfter(c1, second) == c1 && Extracted(c1, second) == Load(c1.value)
    ensures cache.None? ==>
      var again := Extracted(CacheAfter(cache, first), second);
      again.nodes == first.nodes && |again.relationships| == |first.relationships|
      && forall i :: 0 <= i < |first.relationships| ==>
        again.relationships[i].kind == first.relationships[i].kind
        && again.relationships[i].source.id == first.relationships[i].source.id
        && again.relationships[i].target.id == first.relationships[i].target.id
        && again.relationships[i].properties == first.relationships[i].properties
  {
    if cache.None? {
      LoadNodes(first.nodes, first.relationships);
      LoadRelationships(first.nodes, first.relationships);
    }
  }

  // ---------------------------------------------------------------------
  // The cache file and the extraction
  // ---------------------------------------------------------------------

  /** The cache file (`data/graph_cache.json`) and the extractor calls made
      so far. */
  class GraphExtraction {
    /** The file's contents; `None` when the file does not exist. */
    var cache: Option<CacheData>
    /** The texts handed to the extractor, in call order. */
    var extractorCalls: seq<string>

    constructor (cache: Option<CacheData>)
      ensures this.cache == cache && extractorCalls == []
    {
      this.cache := cache;
      extractorCalls := [];
    }

    /** `load_cached_graph`: the contents, if the file exists. */
    method LoadCachedGraph() returns (data: Option<CacheData>)
      ensures data == cache
    {
      data := cache;
    }

    /** `save_graph_to_cache`: the file now holds the serialised fragment. */
    method SaveGraphToCache(nodes: seq<Node>, relationships: seq<Relationship>)
      modifies this
      ensures cache == Some(Serialize(nodes, relationships))
      ensures extractorCalls == old(extractorCalls)
    {
      cache := Some(Serialize(nodes, relationships));
    }

    /** `extract_graph_from_text`: a cache hit rebuilds the cached fragment
        without calling the extractor; a miss calls it once and saves its
        result. `extractor(text, k)` is what the k-th call would return. */
    method ExtractGraphFromText(extractor: (string, nat) -> Fragment, text: string)
      returns (nodes: seq<Node>, relationships: seq<Relationship>)
      modifies this
      ensures var produced := extractor(text, |old(extractorCalls)|);
        Fragment(nodes, relationships) == Extracted(old(cache), produced)
        && cache == CacheAfter(old(cache), produced)
      ensures extractorCalls == if old(cache).Some? then old(extractorCalls) else old(extractorCalls) + [text]
    {
      var cached := LoadCachedGraph();
      if cached.Some? {
        var fragment := Load(cached.value);
        nodes, relationships := fragment.nodes, fragment.relationships;
      } else {
        var produced := extractor(text, |extractorCalls|);
        extractorCalls := extractorCalls + [text];
        nodes, relationships := produced.nodes, produced.relationships;
        SaveGraphToCache(nodes, relationships);
      }
    }
  }
}
