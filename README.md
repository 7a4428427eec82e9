# ExpansionHunter read-to-graph alignments

This project models how ExpansionHunter aligns a read to a graph of the
sequence around a repeat, as a set of Dafny values and functions with
proved contracts.

A locus **graph** is a table of node sequences with directed edges. The
deletion graph has a left flank, a middle node and a right flank, and the
middle node can be skipped. The STR graph has a repeat-unit node with a
self-edge. A **graph path** walks through the graph. It has a start
offset in its first node, the node ids in order, and an inclusive end
offset in its last node. A node may repeat in the path. In a graph
mapping both offsets are bases that the first and the last mapping use,
so both lie inside their nodes.

A **mapping** aligns a piece of the read to one node, starting at a
reference offset. It is a list of operations: M (match or mismatch),
I (insertion), D (deletion) and S (soft clip). Each operation keeps the
read bases and the node bases it covers. A **graph mapping** is a path
plus one mapping per path position. It is checked when it is built, and
it answers these questions:

- the number of matches;
- the aligned read and node bases;
- the read and node spans;
- the mapping at a position;
- the positions that visit a node, and whether a node is visited at all.

Its text form is `0[4M]1[2M3S]`: one `<node id>[<cigar>]` segment per
path position. `DecodeFromString` reads that text against a read and a
graph. `GetCigarString` writes it back.

Modules and files:

| file | module | models |
|---|---|---|
| `results.dfy` | `Results` | the result type and the error tags |
| `decimal.dfy` | `Decimal` | decimal numerals for node ids and operation lengths |
| `graph.dfy` | `Graphs` | the graph and the two graph builders |
| `graph_path.dfy` | `Paths` | the path and its validation |
| `mapping.dfy` | `Mappings` | cigars, mappings and their construction |
| `graph_mapping.dfy` | `GraphMappings` | the graph mapping, its checks and queries |
| `graph_mapping_codec.dfy` | `GraphMappingCodec` | the text codec and its round trips |
| `scenarios.dfy` | `Scenarios` | the construction tests |
| `decoding_scenarios.dfy` | `ScenarioDecoding` | the decoding and query tests |

The model is purely functional, as the source's objects are. They are
built once and only queried afterwards. The source reports a failed
construction with an exception. Here, every construction returns
`Result<T>`: `Ok(value)`, or `Err(tag)` naming the rule that failed.

The unit tests in graphs/unit_tests/graph_mapping_test.cc pin down the
behaviour. They include the implementation headers at lines 21-28, but
the implementation files are not part of this model. So each operation
is reconstructed from what the tests require, and each test is restated
as a lemma about the model.

The tests fix these conventions:

1. **The end offset is inclusive.** It is the position of the last node
   base the last mapping uses, that is start + reference span - 1. The
   first and the last mapping must each use at least one node base.
   Source: test lines 38-47 and 62-66.
2. **The decode offset is a node position.** The first argument of
   `DecodeFromString` is a position in the first node. It is not a
   position in the read; the read is always cut from its first base.
   Source: test lines 107-109.
3. **Mapping equality ignores bases it does not align.** A mapping keeps
   only the node bases its operations cover. So two mappings built
   against nodes that agree on those bases are equal. Source: test line
   102.

## Model

| member | source | states |
|---|---|---|
| Graphs.MakeDeletionGraph | graphs/unit_tests/graph_mapping_test.cc:35 | The graph is valid and has three nodes holding left, middle and right, in that order. It has the edges 0→1, 1→2 and the skip edge 0→2, and no self-edge. |
| Graphs.MakeStrGraph | graphs/unit_tests/graph_mapping_test.cc:106-109 | The graph is valid and has three nodes holding the left flank, the repeat unit and the right flank. It has the edges 0→1, 1→1 (the unit repeats) and 1→2. It has no self-edge on a flank and no skip edge 0→2 (see Left out). |
| Paths.MakePath | graphs/unit_tests/graph_mapping_test.cc:38 | Succeeds exactly when the path is valid, and then returns the path unchanged. It fails with EmptyPath exactly for no nodes. It fails with UnknownNode exactly when some id is missing from the graph. Otherwise it fails with MissingEdge exactly when two consecutive nodes are not linked. No other error occurs. |
| Decimal.NatToString | graphs/unit_tests/graph_mapping_test.cc:74 | The decimal text of a number is canonical: digits only, with no leading zero. It is a single digit exactly for numbers below 10. |
| Decimal.ParseNumeral | graphs/unit_tests/graph_mapping_test.cc:74 | On success, the number's canonical text followed by the remainder gives back the input. The remainder is shorter than the input and does not start with a digit. |
| Decimal.ParseNumeralOfNatToString | graphs/unit_tests/graph_mapping_test.cc:109 | Reading a number's text followed by a non-digit gives back the number and the rest. |
| Decimal.NatToStringOfValue | graphs/unit_tests/graph_mapping_test.cc:109 | Writing back the value of a canonical numeral gives the same text. |
| Decimal.ValueOfNatToString | graphs/unit_tests/graph_mapping_test.cc:109 | The value of a number's text is that number. |
| Mappings.KindOfChar | graphs/unit_tests/graph_mapping_test.cc:102 | A recognised operation letter is the letter of the kind it returns. An unrecognised character is not the letter of any kind. |
| Mappings.SpanDecomposition | graphs/unit_tests/graph_mapping_test.cc:87-94 | The read bases the operations use are the M, I and S lengths. The node bases they use are the M and D lengths. |
| Mappings.ParseCigar | graphs/unit_tests/graph_mapping_test.cc:39-41 | An accepted cigar has only positive lengths and is exactly the text those operations write. Any other text is rejected as MalformedEncoding. |
| Mappings.CigarRoundTrip | graphs/unit_tests/graph_mapping_test.cc:39-41 | Operations with positive lengths read back from their own text unchanged. |
| Mappings.MakeMapping | graphs/unit_tests/graph_mapping_test.cc:39-41 | Succeeds exactly when four things hold: the cigar parses, it uses as many read bases as the read piece holds, the start is not negative, and the node bases it uses fit in the node. On success the mapping keeps the start, the cigar and the read piece, is well formed, and its node bases are those of the node from the start on. A failure is a parse error. |
| Mappings.MappingRoundTrip | graphs/unit_tests/graph_mapping_test.cc:101-102 | Rebuilding a well-formed anchored mapping from its start, its cigar, its read piece and its node gives the same mapping back. |
| Mappings.MappingIgnoresUnalignedBases | graphs/unit_tests/graph_mapping_test.cc:97-102 | Two nodes that agree on the bases a mapping aligns give equal mappings. |
| Mappings.EncodeCigar | graphs/unit_tests/graph_mapping_test.cc:143 | The cigar text of operations never holds a bracket, so it fits between the brackets of a segment. Non-empty operations write at least two characters. |
| Mappings.NumMatches | graphs/unit_tests/graph_mapping_test.cc:75 | The matches of a mapping are at most its read span and at most its node span. |
| Mappings.QuerySpan | graphs/unit_tests/graph_mapping_test.cc:92 | The read span is the total length of the M, I and S operations. |
| Mappings.ReferenceSpan | graphs/unit_tests/graph_mapping_test.cc:93 | The node span is the total length of the M and D operations. |
| Mappings.Query | graphs/unit_tests/graph_mapping_test.cc:83 | For a well-formed mapping, the aligned read bases are as many as the read span less the soft-clipped bases. |
| Mappings.Reference | graphs/unit_tests/graph_mapping_test.cc:84 | For a well-formed mapping, the node bases are as many as the node span. |
| Mappings.ReadSlice | graphs/unit_tests/graph_mapping_test.cc:72-74 | For a well-formed mapping, the read piece is as long as the read span. |
| Mappings.UnclippedQuery | graphs/unit_tests/graph_mapping_test.cc:78-85 | Without soft clips, the aligned read bases are exactly the read piece. |
| GraphMappings.MakeGraphMapping | graphs/unit_tests/graph_mapping_test.cc:34-67 | Succeeds exactly when the path and the mappings are consistent, and then returns them unchanged. Consistent means: the path is valid, there is one mapping per position, each mapping is well formed and anchored on its node, interior mappings cover their whole node, the first mapping starts at the path start and the last one ends at the path end. An invalid path fails with the path's own error. Each error tag is returned exactly when its own check is the first to fail, in the order just given: MappingCountMismatch, NodeSequenceMismatch, InteriorSpanMismatch, StartOffsetMismatch, EndOffsetMismatch. The start check also demands that the first mapping use a node base, and the end check the same of the last mapping. |
| GraphMappings.OffsetsOfConsistent | graphs/unit_tests/graph_mapping_test.cc:38-47 | In a consistent graph mapping, the path start is the first mapping's start and lies inside the first node. The path end is the last base the last mapping uses and lies inside the last node. On a one-node path the start is not after the end. |
| GraphMappings.At | graphs/unit_tests/graph_mapping_test.cc:101-102 | Returns the mapping at position i exactly when i is a position, and fails with IndexOutOfRange otherwise. |
| GraphMappings.IndexesOf | graphs/unit_tests/graph_mapping_test.cc:105-125 | Lists, in increasing order, every position whose node id is n, and only those. |
| GraphMappings.IndexesOfUnique | graphs/unit_tests/graph_mapping_test.cc:105-116 | The list of positions is determined by those three facts. Any increasing list of exactly the positions of n is that list. |
| GraphMappings.UnvisitedNode | graphs/unit_tests/graph_mapping_test.cc:118-125 | A node id that never occurs in the path, including one the graph does not have, has no positions. The result is an empty list, not an error. |
| GraphMappings.GetIndexesOfNode | graphs/unit_tests/graph_mapping_test.cc:113-124 | Lists, in increasing order, every path position that visits node n, and only those. |
| GraphMappings.OverlapsNode | graphs/unit_tests/graph_mapping_test.cc:127-135 | True exactly when the list of positions of the node is not empty. |
| GraphMappings.SpansOf | graphs/unit_tests/graph_mapping_test.cc:87-94 | Summed over the mappings, the matches are at most each span. The read span is the total of the M, I and S lengths, and the node span the total of the M and D lengths. |
| GraphMappings.LengthsOf | graphs/unit_tests/graph_mapping_test.cc:78-94 | For well-formed mappings, the read bases are as long as the read span. The aligned read bases are the read span less the soft clips. The node bases are as long as the node span. |
| GraphMappings.NumMatches | graphs/unit_tests/graph_mapping_test.cc:75 | The matches of a graph mapping are at most its read span and at most its node span. |
| GraphMappings.QuerySpan | graphs/unit_tests/graph_mapping_test.cc:92 | The read span is the total length of the M, I and S operations of all mappings. |
| GraphMappings.ReferenceSpan | graphs/unit_tests/graph_mapping_test.cc:93 | The node span is the total length of the M and D operations of all mappings. |
| GraphMappings.Query | graphs/unit_tests/graph_mapping_test.cc:83 | When every mapping is well formed, the aligned read bases are as many as the read span less the soft-clipped bases. |
| GraphMappings.Reference | graphs/unit_tests/graph_mapping_test.cc:84 | When every mapping is well formed, the node bases are as many as the node span. |
| GraphMappings.Read | graphs/unit_tests/graph_mapping_test.cc:72-74 | When every mapping is well formed, the read bases are as many as the read span. |
| GraphMappings.UnclippedOf | graphs/unit_tests/graph_mapping_test.cc:78-85 | Without soft clips, the aligned read bases of the mappings are all of their read bases. |
| GraphMappings.UnclippedGraphQuery | graphs/unit_tests/graph_mapping_test.cc:78-85 | Without soft clips, the Query of a consistent graph mapping is the whole read it covers. |
| GraphMappingCodec.ReadSegment | graphs/unit_tests/graph_mapping_test.cc:74 | A segment that is read back, written out and followed by the rest, gives the input. Its cigar holds no closing bracket. |
| GraphMappingCodec.SplitSegments | graphs/unit_tests/graph_mapping_test.cc:109 | An accepted encoding is a non-empty list of segments that writes back exactly that text. Anything else is rejected as MalformedEncoding. |
| GraphMappingCodec.SplitRoundTrip | graphs/unit_tests/graph_mapping_test.cc:140-143 | A non-empty list of segments reads back from its own text unchanged. |
| GraphMappingCodec.BuildMappings | graphs/unit_tests/graph_mapping_test.cc:72-74 | On success there is one mapping per segment, in order. Each mapping has its segment's cigar and is well formed and anchored on its segment's node. The mappings' read pieces, joined, are the whole read. The first mapping starts at the given offset and the later ones at 0. A failure is a parse error or UnknownNode. |
| GraphMappingCodec.GetCigarString | graphs/unit_tests/graph_mapping_test.cc:143 | The text of a non-empty graph mapping splits back into one segment per path position, pairing the node id with that mapping's cigar. |
| GraphMappingCodec.BuildOfMappings | graphs/unit_tests/graph_mapping_test.cc:140-143 | Building from the segments of well-formed, anchored mappings, against the read they cover, gives those mappings back. |
| GraphMappingCodec.DecodeFromString | graphs/unit_tests/graph_mapping_test.cc:72-74 | A decoded graph mapping is consistent and lies on the given graph. It starts at the given offset, covers the whole read, and starts every mapping after the first at 0. It writes back exactly the decoded text. Text that does not split into segments fails with MalformedEncoding. Any failure is a parse error, UnknownNode, MissingEdge, InteriorSpanMismatch, StartOffsetMismatch or EndOffsetMismatch. |
| GraphMappingCodec.Assemble | graphs/unit_tests/graph_mapping_test.cc:72-74 | Pairing mappings built from segments with the path through the segments' nodes gives, on success, a consistent graph mapping on the given graph, starting at the given offset, holding those mappings and writing back the segments' text. A failure is UnknownNode, MissingEdge or a failed interior, start or end check. |
| GraphMappingCodec.EncodeThenDecode | graphs/unit_tests/graph_mapping_test.cc:137-144 | Take a consistent graph mapping whose later mappings start at 0. Decoding its text against its read, its start offset and its graph gives it back. |
| Scenarios.MatchMapping | graphs/unit_tests/graph_mapping_test.cc:39-41 | A cigar `<n>M` with the n node bases from the start as read piece builds a single run of n matches. |
| Scenarios.LastBaseOfLeftFlank | graphs/unit_tests/graph_mapping_test.cc:39 | Mapping(3, "1M", "A", "AAAA") is built: one match at offset 3. |
| Scenarios.WholeNode | graphs/unit_tests/graph_mapping_test.cc:40-41 | Mapping(0, "4M", node, node) is built for any four-base node: four matches over the whole node. It serves TTGG and TTTT here and AAAA at line 101. |
| Scenarios.ThirdBaseOfMiddleNode | graphs/unit_tests/graph_mapping_test.cc:47 | Mapping(2, "1M", "G", "TTGG") is built: one match at offset 2. |
| Scenarios.LastTwoOfLeftFlank | graphs/unit_tests/graph_mapping_test.cc:63 | Mapping(2, "2M", "AA", "AAAA") is built: two matches at offset 2. |
| Scenarios.FirstThreeOfRightFlank | graphs/unit_tests/graph_mapping_test.cc:65 | Mapping(0, "3M", "TTT", "TTTT") is built: three matches from offset 0. |
| Scenarios.ThroughRuns | graphs/unit_tests/graph_mapping_test.cc:38-41 | Runs of matches on the walk 0→1→2 of the deletion graph are anchored. The interior check passes exactly when the middle run covers 4 bases. The start check passes exactly when the first run starts at the path start. The end check passes exactly when the last run ends at the path end. |
| Scenarios.ThroughPathAccepted | graphs/unit_tests/graph_mapping_test.cc:34-43 | The three mappings are built, and the graph mapping on path (3, [0,1,2], 3) is accepted. |
| Scenarios.InnerPathAccepted | graphs/unit_tests/graph_mapping_test.cc:45-49 | The mapping is built, and the graph mapping on the one-node path (2, [1], 2) is accepted. |
| Scenarios.StartMismatchRejected | graphs/unit_tests/graph_mapping_test.cc:52-60 | On path (2, [0,1,2], 3), the mappings whose first one starts at 3 are rejected with StartOffsetMismatch. |
| Scenarios.EndMismatchRejected | graphs/unit_tests/graph_mapping_test.cc:62-67 | On the same path, the mappings whose last one, 3M at 0, ends at offset 2 are rejected with EndOffsetMismatch. |
| ScenarioDecoding.DecodeClippedRead | graphs/unit_tests/graph_mapping_test.cc:70-74 | Decoding `0[4M]1[2M3S]` with read AAAATTCCC at offset 0 gives four matches on the left flank, then two matches and three soft-clipped bases on the middle node. This holds for any middle node starting with TT. |
| ScenarioDecoding.ClippedReadMatches | graphs/unit_tests/graph_mapping_test.cc:70-76 | The decoded alignment has 6 matches. |
| ScenarioDecoding.ClippedReadSequences | graphs/unit_tests/graph_mapping_test.cc:78-85 | Its Query and its Reference are both AAAATT; the soft clip is excluded. |
| ScenarioDecoding.ClippedReadSpans | graphs/unit_tests/graph_mapping_test.cc:87-94 | Its read span is 9, soft clip included. Its node span is 6. |
| ScenarioDecoding.ClippedTailMapping | graphs/unit_tests/graph_mapping_test.cc:102 | Mapping(0, "2M3S", "TTCCC", "TTGG") is built: two matches then three soft-clipped bases. |
| ScenarioDecoding.ClippedReadPositions | graphs/unit_tests/graph_mapping_test.cc:96-103 | On a middle node TTGC, position 0 holds Mapping(0, "4M", "AAAA", "AAAA"). Position 1 holds Mapping(0, "2M3S", "TTCCC", "TTGG"), built against TTGG. |
| ScenarioDecoding.DecodeRepeatRead | graphs/unit_tests/graph_mapping_test.cc:105-109 | Decoding `0[2M]1[3M]1[3M]2[2M]` with read CCCCGCCGAT at offset 4 of the STR graph gives two bases of the left flank, two repeat units, then two bases of the right flank. |
| ScenarioDecoding.RepeatReadIndexes | graphs/unit_tests/graph_mapping_test.cc:105-116 | The left flank is at positions [0], the repeat unit at [1, 2] and the right flank at [3]. |
| ScenarioDecoding.DecodeFlankRead | graphs/unit_tests/graph_mapping_test.cc:118-121 | Decoding `0[3M]1[3M]` with read ACCCCG at offset 3 gives three bases of the left flank, then one repeat unit. |
| ScenarioDecoding.FlankReadMissingIndexes | graphs/unit_tests/graph_mapping_test.cc:118-125 | The right flank, node 2, and the id 4, which the graph does not have, both have the empty list of positions. |
| ScenarioDecoding.FlankReadOverlaps | graphs/unit_tests/graph_mapping_test.cc:127-135 | The alignment overlaps nodes 0 and 1 but not nodes 2 and 3. |
| ScenarioDecoding.RepeatReadEncoding | graphs/unit_tests/graph_mapping_test.cc:137-144 | Encoding the decoded repeat read gives back `0[2M]1[3M]1[3M]2[2M]`. The two visits of node 1 stay two segments. |

## Left out

- `graphs/graph_builders.h`, `graphs/path.h`, `graphs/graph_mapping.h`
  and `graphs/graph_mapping_operations.h` are not part of this model. The
  graph builders and the constructions of `GraphPath`, `Mapping` and
  `GraphMapping` are reconstructed from their uses in the tests.
- Mappings.MakeMapping: a cigar is kept as written. Two adjacent
  operations of the same kind are not merged into one run, so `2M2M`
  writes back as `2M2M`. No cigar in the tests has such a pair.
- Mappings.MakeMapping: M means match or mismatch. Read bases are not
  compared with node bases, so the model does not count mismatches.
- Decimal.ParseNumeral: numerals with a leading zero, such as `01[4M]`,
  are rejected. This keeps the text round trip exact. The source may
  accept them.
- Counts and lengths are unbounded naturals. The source's 32-bit integer
  results (`int32_t`) and their overflow are not modelled.
- Node ids are naturals. A negative id given to `GetIndexesOfNode` or
  `OverlapsNode` simply matches no position.
- The graph is shared between paths through a shared pointer. Here it is
  an immutable value: sharing, aliasing and concurrent use are not
  modelled.
- The total covered length of a path is not modelled: no test uses it.
- Reading the first argument of DecodeFromString as a read offset does
  not fit test lines 107-109. The model reads it as the start position in
  the first node, and always cuts the read from its first base.
- The relation "read span = node span + insertions + soft clips" does not
  hold once a mapping has a deletion. The model proves the general
  relation instead: read span + deletions = node span + insertions + soft
  clips, which follows from Mappings.QuerySpan and Mappings.ReferenceSpan
  and, over a graph mapping, from GraphMappings.SpansOf.
- GraphMappings.MakeGraphMapping: the start check also rejects a first
  mapping that uses no node base, and the end check a last mapping that
  uses none (only insertions or soft clips). Without this a path could
  end at offset -1, or a one-node path end before it starts. No test
  builds such a mapping; the upstream source may instead reject it when
  the path is built.
- Mappings.Query: the aligned read bases keep the inserted bases and
  leave out only the soft clips, as the aligned read of an alignment
  does. A reading that keeps only the bases of M operations is not
  modelled. The tests cannot tell the two apart: their alignments have
  no insertion. GraphMappings.Query follows Mappings.Query.
- Graphs.MakeStrGraph: a skip edge 0→2, for an allele with no copy of
  the repeat unit, is not in the model. The builder's implementation is
  not part of this model, and no test walks from the left flank straight
  to the right flank.
- GraphMappings.MakeGraphMapping: a first mapping that stops before the
  end of its node is not rejected, and neither is a last mapping that
  starts after the beginning of its node. No test decides either case.
- `common/repeat_spec.cc` is not part of this model: it is JSON, FASTA
  and file-system input.
- `workflow/GraphLocusAnalyzer.cpp` is not part of this model: it only
  orchestrates analyzers.
- `sample_analysis/HtsSeekingSampleAnalysis.hh` is not part of this
  model: it is BAM input plumbing.
