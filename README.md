# Course-notes preprocessing and knowledge-graph merge, in Dafny

This project models two parts of a knowledge-graph builder and proves what they
guarantee.

**sTeX course notes** (get_course_stex.py):
- `transform_line` and `cleanup_stex` clean a LaTeX/sTeX source line by line.
  Each line is whitespace-stripped. Comment lines (`%`) are dropped. Lines that
  open with a junk macro (`\documentclass`, `\importmodule`, `\libinput`, …)
  are dropped too.
- `replace_inputref_line` recognises three include directives:
  `\inputref*?[archive]{file}`, `\libinput{file}` and `\mhinput{file}`. It
  fetches the included file and saves it as the next numbered note
  (`01.tex`, `02.tex`, …) in the `course_notes` directory. It then replaces the
  directive by a `File: [archive]{file}` marker.
- `replace_inputref` does this for every line of a text.
- `get_recursive_stex` fetches, cleans and rewrites one file.

The directive patterns are regular expressions. They are modelled as a
backtracking matcher anchored at the start of the line:
- The lazy archive group stops at the first `]` that is followed by a braced
  file name.
- Neither group crosses a newline.

The directory is a `CourseNotes` object whose `files` map (name to text) its
methods update. A note is named by the count of `.tex` files already in the
directory plus one. When those files are exactly notes 1 to k, the new note is
k+1 and nothing is overwritten (`StexInputs.SaveNoteNumbering`). Otherwise the
name may be taken and that file is replaced (`StexInputs.SaveNoteOverwrites`).

**Graph cache and merge** (src/knowledge_graph.py):
- `save_graph_to_cache` serialises an extracted fragment into one cache file.
- `load_cached_graph` and `extract_graph_from_text` read it back. The extractor
  (a language model) is called only when there is no cache.
- `construct_knowledge_graph` merges the nodes and relationships into a graph
  database:
  - One `MERGE (n:Entity {id, name, type})` per node.
  - Then one `MATCH … MERGE (a)-[:RELATIONSHIP {type}]->(b)` per relationship.

The script as a whole, extraction and then merge, is the module `GraphPipeline`.
The cache file is an optional value on a `GraphExtraction` object. The database
is a `Store` of entity keys and edges on a `GraphSession` object. Each Cypher
statement is modelled as its effect on that store.

The model follows the code, including in these behaviours:
- The code keeps a single cache file, `data/graph_cache.json`. It is not keyed
  by the text: once it exists, every extraction returns it, whatever the text
  (`GraphCache.SecondExtractionHits`).
- The round trip through the cache is not exact. Relationship endpoints come
  back as bare nodes (type `""`, no properties). A relationship survives exactly
  when its endpoints were bare (`GraphCache.RelationshipRoundTrip`).
- Extracted fragments are not deduplicated or normalised before they are
  cached or merged.
- Entities are merged on the key (id, name, type), not on the id alone. Two
  nodes with the same id and different types give two entities. A relationship
  then gets an edge for every pair of entities that carry its endpoint ids
  (`GraphStore.Matches`).
- A relationship whose endpoint is missing raises no error and is not
  reported. Its `MATCH` finds nothing, so it adds nothing
  (`GraphStore.DanglingSkipped`).

## Model

| member | source | states |
|---|---|---|
| Text.StripSlice | get_course_stex.py:70 | `line.strip()` is the slice of the line between a whitespace prefix and a whitespace suffix; only whitespace is removed, only at the ends |
| Text.Strip | get_course_stex.py:70 | the stripped line has no whitespace at either end and is no longer than the line |
| Text.StripIdempotent | get_course_stex.py:70 | stripping twice is stripping once |
| Text.JoinSplit | get_course_stex.py:80-83 | `"\n".join(text.split("\n"))` gives the text back |
| Text.SplitJoin | get_course_stex.py:117-121 | splitting the join of newline-free lines gives the lines back |
| Text.Split | get_course_stex.py:83 | `split("\n")` yields at least one piece and no piece holds a newline |
| Text.NatToDecimalSound | get_course_stex.py:55 | `str(n)` is a non-empty digit string without a leading zero that denotes n, of at most two digits below 100 |
| Text.ZFill | get_course_stex.py:55 | `zfill(width)` keeps the string as a suffix, pads only with zeros, and has length max(len, width) |
| Text.DecimalValueLeadingZeros | get_course_stex.py:55 | zero padding does not change the number a digit string denotes |
| StexCleanup.ScanTags | get_course_stex.py:73-75 | the early-return loop over the tags answers true exactly when some tag, after a backslash, opens the line |
| StexCleanup.TransformLine | get_course_stex.py:69-76 | a line kept outside debug mode is the stripped line, and it is clean (stripped, not a comment, no junk macro) |
| StexCleanup.TransformLineCases | get_course_stex.py:69-76 | the three outcomes: a comment is dropped; a junk line is dropped, or marked `%% removed: …` in debug mode; any other line becomes its stripped form |
| StexCleanup.TransformLineFixedPoint | get_course_stex.py:69-76 | a line is kept unchanged if and only if it is clean |
| StexCleanup.RemovedMarkerIsComment | get_course_stex.py:75 | a debug removal marker is itself dropped by a later cleanup |
| StexCleanup.KeptLines | get_course_stex.py:80-85 | the filtered comprehension keeps no more lines than it was given, all of them clean, and adds no newline |
| StexCleanup.KeptLinesInOrder | get_course_stex.py:80-85 | the kept lines are the stripped forms of exactly the lines `transform_line` does not drop, in their original order |
| StexCleanup.CleanupStexLines | get_course_stex.py:79-86 | every line of `cleanup_stex(text)` is clean, and it has no more lines than the text |
| StexCleanup.CleanupStex | get_course_stex.py:79-86 | `cleanup_stex`: split on newlines, keep the stripped clean lines, join on newlines; characterised by `CleanupStexLines`, `CleanupLines`, `KeptLinesInOrder` and `CleanupIdempotent` |
| StexCleanup.CleanupLines | get_course_stex.py:80-86 | the lines of the cleaned text are the kept lines, or one empty line when nothing was kept |
| StexCleanup.CleanupIdempotent | get_course_stex.py:79-86 | cleaning cleaned text changes nothing |
| StexInputs.RawStexUrl | get_course_stex.py:34-35 | the raw-file address is the host, the archive, `/-/raw/main/source/` and the file name, each readable back at its position |
| StexInputs.GetRawStex | get_course_stex.py:38-40 | `get_raw_stex` is the network fetch of the address `RawStexUrl` builds; the network is the parameter `fetch` |
| StexInputs.UpToBrace | get_course_stex.py:90 | `(.*?)\}` captures the shortest newline-free text before a `}`; it fails only when every `}` comes after a newline |
| StexInputs.BracedArg | get_course_stex.py:90 | `\{(.*?)\}` matches a prefix `{f}` with f free of `}` and newlines |
| StexInputs.BracedArgOf | get_course_stex.py:90 | a braced name without `}` or newline is read back whole, whatever follows it |
| StexInputs.ScanArchiveSound | get_course_stex.py:90 | the archive group found is the first newline-free position where a `]` is followed by a braced argument |
| StexInputs.ScanArchiveFirst | get_course_stex.py:90 | when such a first position exists, the lazy group stops there |
| StexInputs.DirectiveBodySound | get_course_stex.py:90 | a parsed `[archive]{file}` or `{file}` opens the text it was parsed from, with no newline in either part |
| StexInputs.DirectiveBodyOf | get_course_stex.py:90 | a well-formed directive body is parsed back whole, whatever follows it |
| StexInputs.ParseInputref | get_course_stex.py:90 | the first pattern of `replace_inputref_line` matches only a line that opens with `\inputref`; `ParseInputrefSound` and `ParseInputrefOf` pin down what it captures |
| StexInputs.ParseInputrefSound | get_course_stex.py:90 | a parsed `\inputref` directive opens the line, with or without its star |
| StexInputs.ParseInputrefOf | get_course_stex.py:90 | `\inputref`, an optional star and a well-formed body parse back to that body |
| StexInputs.CommandArg | get_course_stex.py:99-108 | `\libinput\{(.*?)\}` and `\mhinput\{(.*?)\}` capture f only when the line opens with `command{f}` |
| StexInputs.FindInclusion | get_course_stex.py:89-113 | the three patterns are tried in order; only `\inputref` names its own archive, the other two use the fallback archive |
| StexInputs.RewriteLine | get_course_stex.py:89-113 | what `replace_inputref_line` returns: the `File: [archive]{file}` marker of the line's directive, or the line itself; characterised by `RewriteLineUnchanged`, `RewriteInputref` and `RewriteLibinputMhinput` |
| StexInputs.RewriteLineUnchanged | get_course_stex.py:89-113 | a line is returned unchanged if and only if no pattern matches it |
| StexInputs.RewriteInputref | get_course_stex.py:90-97 | `\inputref*?[A]{F}` becomes `File: [A]{F}`, and without `[A]` the fallback archive is used |
| StexInputs.RewriteLibinputMhinput | get_course_stex.py:99-111 | `\libinput{F}` and `\mhinput{F}` become `File: [fallback]{F}` |
| StexInputs.RewriteLines | get_course_stex.py:116-121 | `replace_inputref_line` over every line, in order: one rewritten line per line |
| StexInputs.LibinputUnreachable | get_course_stex.py:124-126 | `libinput` is a junk tag, so no line of cleaned text reaches the `\libinput` branch |
| StexInputs.NoteFileName | get_course_stex.py:55 | `str(n).zfill(2) + ".tex"`; `NoteFileNameShape` and `NoteFileNameInjective` characterise it |
| StexInputs.NoteFileNameShape | get_course_stex.py:55 | the n-th note's name is n in decimal, zero-padded to two digits, then `.tex`; below 100 it is six characters |
| StexInputs.NoteFileNameInjective | get_course_stex.py:55 | different note numbers give different file names |
| StexInputs.NoteNamesCount | get_course_stex.py:53-55 | the first k notes have k distinct names |
| StexInputs.TexFilesInsert | get_course_stex.py:53 | writing a `.tex` file adds its name to the listed `.tex` files |
| StexInputs.SaveNote | get_course_stex.py:53-64 | the directory after `save_content_to_file`: the note text stored under the name numbered one past the count of `.tex` files; `SaveNoteNumbering` and `SaveNoteOverwrites` say what that means |
| StexInputs.SaveNoteNumbering | get_course_stex.py:53-64 | in a directory holding exactly notes 1 to k, the next save writes note k+1 as a new file, overwrites nothing, and the directory then holds notes 1 to k+1 |
| StexInputs.SaveNoteOverwrites | get_course_stex.py:53-55 | numbering by the count of `.tex` files replaces an existing note when the files are not exactly notes 1 to k: a directory holding only `02.tex` gets its next note written to `02.tex` |
| StexInputs.SaveFoundNumbering | get_course_stex.py:95-96 | in a directory holding exactly notes 1 to k, handling one line saves note k+1 when the line is a directive, nothing otherwise, and keeps every file |
| StexInputs.SaveAllNumbering | get_course_stex.py:116-121 | in a directory holding exactly notes 1 to k, handling a text's lines saves one new note per directive, numbered on from k, and keeps every file |
| StexInputs.CourseNotes.SaveContentToFile | get_course_stex.py:42-66 | the note is written under the name numbered one past the count of `.tex` files, with the three header lines, a blank line and the content |
| StexInputs.CourseNotes.ReplaceInputrefLine | get_course_stex.py:89-113 | returns the line's rewriting and saves the line's directive, if any |
| StexInputs.CourseNotes.ReplaceInputref | get_course_stex.py:116-121 | returns the lines rewritten one by one and joined, and saves their directives in line order |
| StexInputs.CourseNotes.GetRecursiveStex | get_course_stex.py:124-126 | returns the cleaned file with its directives rewritten, and saves the directives of the cleaned lines |
| GraphDocs.Bare | src/knowledge_graph.py:70-71 | a node rebuilt from an id alone has type `""` and no properties |
| GraphCache.Serialize | src/knowledge_graph.py:49-59 | the `graph_data` written to the cache keeps one record per node and one per relationship; `SerializeRecords` gives their fields |
| GraphCache.Load | src/knowledge_graph.py:65-74 | the cache-hit branch rebuilds one node per node record and one relationship per relationship record; `LoadNodes` and `LoadRelationships` give their contents |
| GraphCache.SerializeRecords | src/knowledge_graph.py:49-59 | the cache holds one record per node (id, type, properties) and one per relationship (source id, target id, type, properties), in order |
| GraphCache.LoadNodes | src/knowledge_graph.py:68 | loading what was saved gives back the nodes exactly |
| GraphCache.LoadRelationships | src/knowledge_graph.py:69-74 | loading gives back each relationship's endpoint ids, type and properties, with bare endpoints |
| GraphCache.RelationshipRoundTrip | src/knowledge_graph.py:52-74 | the relationships survive the round trip if and only if all their endpoints are bare |
| GraphCache.SerializeLoadSerialize | src/knowledge_graph.py:49-74 | saving what was loaded writes the same cache again |
| GraphCache.Extracted | src/knowledge_graph.py:63-87 | what `extract_graph_from_text` returns: the loaded cache on a hit, the produced fragment on a miss; `MissReturnsProduced` and `SecondExtractionHits` characterise it |
| GraphCache.CacheAfter | src/knowledge_graph.py:63-87 | after an extraction a cache always exists |
| GraphCache.MissReturnsProduced | src/knowledge_graph.py:76-87 | on a miss, the produced fragment is returned unchanged and the cache then holds it |
| GraphCache.SecondExtractionHits | src/knowledge_graph.py:63-87 | once an extraction has run, every later one hits the cache, whatever its text, and returns the first fragment's nodes, and its relationships with the same endpoint ids, types and properties but bare endpoints |
| GraphCache.GraphExtraction.LoadCachedGraph | src/knowledge_graph.py:42-47 | returns the cache contents, or nothing when there is no cache file |
| GraphCache.GraphExtraction.SaveGraphToCache | src/knowledge_graph.py:49-61 | the cache file then holds the serialised fragment |
| GraphCache.GraphExtraction.ExtractGraphFromText | src/knowledge_graph.py:63-87 | a hit returns the cached fragment without calling the extractor; a miss calls it exactly once, returns its fragment and saves it |
| GraphStore.Matches | src/knowledge_graph.py:105-106 | the MATCH of a relationship pairs every entity carrying the source id with every entity carrying the target id, and nothing when either side is missing; used by `RelationshipEdgesHas` and `DanglingSkipped` |
| GraphStore.Run | src/knowledge_graph.py:93-111 | a MERGE statement never removes an entity or an edge; `RunTwice` shows it is idempotent |
| GraphStore.Statements | src/knowledge_graph.py:89-111 | one statement per node and one per relationship |
| GraphStore.RunNodes | src/knowledge_graph.py:92-100 | the node loop adds exactly the keys (id, id, type) of the nodes |
| GraphStore.RunRelationships | src/knowledge_graph.py:102-111 | the relationship loop adds, for each relationship, an edge between every pair of stored entities that carry its endpoint ids, and changes no entity |
| GraphStore.RunAllAppend | src/knowledge_graph.py:89-111 | running the statements in two parts is running the first part and then the second |
| GraphStore.MergeClosedForm | src/knowledge_graph.py:89-111 | the merge leaves exactly the old store plus the node keys plus the edges of every relationship among all the entities |
| GraphStore.MergeContainsKeys | src/knowledge_graph.py:92-100 | after the merge the store holds every node's key and everything it held before |
| GraphStore.MergeIdempotent | src/knowledge_graph.py:89-111 | merging the same fragment twice leaves the store of merging it once |
| GraphStore.RunTwice | src/knowledge_graph.py:95 | a MERGE statement run twice has the effect of running it once |
| GraphStore.NodesBeforeRelationships | src/knowledge_graph.py:91-111 | every node statement comes before every relationship statement |
| GraphStore.FragmentEdgesPresent | src/knowledge_graph.py:89-111 | a relationship between two nodes of the same fragment always gets its edge |
| GraphStore.RelationshipsFirstLoseEdges | src/knowledge_graph.py:89-111 | run relationships first and nodes second, any fragment on an empty store would get no edge, which is why the code runs the node loop first |
| GraphStore.RelationshipEdgesAppend | src/knowledge_graph.py:102-111 | the relationship loop over two runs of relationships asks for the edges of the first run together with those of the second |
| GraphStore.DanglingSkipped | src/knowledge_graph.py:104-106 | a relationship with an endpoint id that names no entity adds nothing, wherever it stands among the relationships |
| GraphStore.MergeKeepsClosed | src/knowledge_graph.py:102-111 | if every edge joins stored entities before the merge, it still does after |
| GraphStore.RelationshipEdgesHas | src/knowledge_graph.py:105-106 | each relationship asks for an edge between every pair of entities carrying its endpoint ids |
| GraphStore.WorksAtScenario | src/knowledge_graph.py:89-111 | two nodes and the same relationship twice, on an empty store, give two entities and one edge |
| GraphStore.GraphSession.RunStatement | src/knowledge_graph.py:93-100 | the store takes the statement's effect, and the statement is recorded as sent |
| GraphStore.GraphSession.MergeNodes | src/knowledge_graph.py:92-100 | sends one entity MERGE per node, in order, and the store is their effect |
| GraphStore.GraphSession.MergeRelationships | src/knowledge_graph.py:102-111 | sends one relationship MERGE per relationship, in order, and the store is their effect |
| GraphStore.GraphSession.ConstructKnowledgeGraph | src/knowledge_graph.py:89-111 | sends the node statements and then the relationship statements, and leaves the store they produce, which `GraphStore.MergeClosedForm` describes |
| GraphPipeline.LoadedMergesAlike | src/knowledge_graph.py:63-111 | a fragment read back from the cache sends exactly the statements the saved fragment sends, although its relationship endpoints come back bare |
| GraphPipeline.TwoRuns | src/knowledge_graph.py:63-111 | running the script twice, a cache miss and then a cache hit, leaves the store one run leaves, whatever the second extraction would have produced |
| GraphPipeline.WorksAtTwice | src/knowledge_graph.py:63-111 | nodes A and B with one WORKS_AT relationship, the script run twice on an empty database (a cache miss, then a hit), leave two entities and one edge |

## Left out

- HTTP fetching in `get_raw_stex` (get_course_stex.py:38-40) and its response cache. The network is the parameter `fetch`, from address to text.
- StexInputs.CourseNotes.ReplaceInputrefLine: the nested fetch (`nested`) saves no note, so the directive's note is numbered k+1. In the code it is numbered after every note the nested `get_recursive_stex` saved first (get_course_stex.py:95-96).
- StexInputs.SaveFoundNumbering: the directive's note is numbered k+1 because the nested fetch saves no note in the model. In the code it comes after the notes that the nested `get_recursive_stex` saved first (get_course_stex.py:95-96).
- StexInputs.SaveAllNumbering: "one note per directive, numbered on from k" counts only the notes of this level. The notes that nested fetches save in the code are not modelled, and they would push the numbers further.
- StexInputs.CourseNotes.GetRecursiveStex: models one level only. The recursive fetch of an included file is the parameter `nested`, and the notes that deeper levels save are not modelled.
- StexInputs.CourseNotes.SaveContentToFile: does not model the directory path, directory creation, the sorting of the listing (it only affects order, not the count) or the `print`.
- The `debug` argument of `transform_line` is modelled, but `cleanup_stex` always uses `debug=False`.
- `JUNK_BEGIN_END_TAGS` and `clear_cache` are not used by the modelled functions.
- Unicode: strings are sequences of characters. `str.isspace` is listed by code point.
- PDF reading (`read_pdf_file`), environment variables, the Neo4j driver, the `__main__` blocks and the two `print` calls of `extract_graph_from_text` (src/knowledge_graph.py:75, 85) are I/O.
- The language-model extractor is the parameter `extractor`. It is given the text and the call's ordinal, so it may answer differently each time.
- GraphCache.LoadNodes: reads the cache-hit `Node(**node_data)` (src/knowledge_graph.py:68) as rebuilding the graph-document node (id, type, properties) that was saved. The code imports `Node` from `langchain_core.runnables.graph` (src/knowledge_graph.py:10), a different class whose fields are id, name, data and metadata. Taken literally, rebuilding a saved node there would fail on its `type` and `properties` fields. The bare endpoints at src/knowledge_graph.py:70-71 are read the same way.
- JSON encoding and decoding of the cache file are not modelled. A cache file whose JSON is malformed, or which decodes to an empty or other falsy value, is not modelled: the code would raise, or treat it as a miss.
- Property values are the JSON scalars: null, booleans, integers and strings. Floating-point numbers and nested values are not modelled.
- Node and relationship properties are never written to the database by the code, so the store holds no properties.
- Concurrent sessions and transactions are not modelled. Each statement applies atomically, in order.
- Database errors, and entities created outside these MERGE statements, are not modelled.
