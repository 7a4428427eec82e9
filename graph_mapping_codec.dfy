/** The compact text form of a graph mapping:

      Encoding := Segment+
      Segment  := NodeId "[" Cigar "]"
      Cigar    := (Length OpChar)+

    with decimal node ids and positive lengths, no separators and no
    whitespace. GetCigarString writes one segment per path position, so
    consecutive visits to the same node stay separate segments. */
module GraphMappingCodec {
  import opened Results
  import opened Decimal
  import opened Graphs
  import opened Paths
  import M = Mappings
  import opened GraphMappings

  /** One bracketed segment: a node id and the cigar text between the brackets. */
  datatype Segment = Segment(nodeId: nat, cigar: string)

  function EncodeSegment(seg: Segment): string {
    NatToString(seg.nodeId) + "[" + seg.cigar + "]"
  }

  function EncodeSegments(segs: seq<Segment>): string {
    if segs == [] then "" else EncodeSegment(segs[0]) + EncodeSegments(segs[1..])
  }

  predicate Unbracketed(segs: seq<Segment>) {
    forall i :: 0 <= i < |segs| ==> ']' !in segs[i].cigar
  }

  /** The position of the first closing bracket of s, or |s| when there is none. */
  function CloseBracket(s: string): (k: nat)
    ensures k <= |s| && ']' !in s[..k]
    ensures k < |s| ==> s[k] == ']'
  {
    if s == [] || s[0] == ']' then 0
    else
      var k := 1 + CloseBracket(s[1..]);
      assert s[..k] == [s[0]] + s[1..][..k - 1];
      k
  }

  /** Reads the segment s starts with, and returns it with what follows it. */
  function ReadSegment(s: string): (r: Option<(Segment, string)>)
    ensures r.Some? ==> ']' !in r.value.0.cigar && EncodeSegment(r.value.0) + r.value.1 == s
    ensures r.Some? ==> |r.value.1| < |s|
  {
    match ParseNumeral(s)
    case None => None
    case Some((id, rest)) =>
      if rest == [] || rest[0] != '[' then None
      else
        var body := rest[1..];
        var k := CloseBracket(body);
        if k == |body| then None
        else
          var seg := Segment(id, body[..k]);
          var tail := body[k + 1..];
          Reassemble(NatToString(id), rest, k);
          Some((seg, tail))
  }

  /** A numeral, an opening bracket, a bracketed text and what follows it
      put back together. */
  lemma Reassemble(digits: string, rest: string, k: nat)
    requires |rest| > 0 && rest[0] == '['
    requires k < |rest| - 1 && rest[1..][k] == ']'
    ensures digits + rest == digits + "[" + rest[1..][..k] + "]" + rest[1..][k + 1..]
  {
    var body := rest[1..];
    assert body == body[..k] + "]" + body[k + 1..];
    assert rest == "[" + body;
  }

  /** Splits an encoding into its segments. What it accepts is exactly what
      EncodeSegments writes for a non-empty list of segments. */
  function SplitSegments(s: string): (r: Result<seq<Segment>>)
    ensures r.Ok? ==> |r.value| > 0 && Unbracketed(r.value) && EncodeSegments(r.value) == s
    ensures r.Err? ==> r.error == MalformedEncoding
    decreases |s|
  {
    match ReadSegment(s)
    case None => Err(MalformedEncoding)
    case Some((seg, tail)) =>
      if tail == [] then Ok([seg])
      else
        match SplitSegments(tail)
        case Err(e) => Err(e)
        case Ok(segs) =>
          assert ([seg] + segs)[1..] == segs;
          Ok([seg] + segs)
  }

  /** A segment written by EncodeSegment reads back, whatever follows it. */
  lemma ReadSegmentOfEncoding(seg: Segment, tail: string)
    requires ']' !in seg.cigar
    ensures ReadSegment(EncodeSegment(seg) + tail) == Some((seg, tail))
  {
    var rest := "[" + seg.cigar + "]" + tail;
    assert EncodeSegment(seg) + tail == NatToString(seg.nodeId) + rest;
    ParseNumeralOfNatToString(seg.nodeId, rest);
    Disassemble(seg.cigar, tail);
    CloseBracketOfPrefix(seg.cigar, "]" + tail);
  }

  lemma Disassemble(c: string, tail: string)
    ensures var rest := "[" + c + "]" + tail;
      && rest[0] == '['
      && rest[1..] == c + ("]" + tail)
      && rest[1..][..|c|] == c
      && rest[1..][|c| + 1..] == tail
  {
    var rest := "[" + c + "]" + tail;
    assert rest[1..] == c + ("]" + tail);
  }

  lemma SplitStep(seg: Segment, tail: string)
    requires ']' !in seg.cigar
    ensures tail == [] ==> SplitSegments(EncodeSegment(seg) + tail) == Ok([seg])
    ensures tail != [] && SplitSegments(tail).Ok? ==>
      SplitSegments(EncodeSegment(seg) + tail) == Ok([seg] + SplitSegments(tail).value)
  {
    ReadSegmentOfEncoding(seg, tail);
  }

  lemma {:induction false} SplitRoundTrip(segs: seq<Segment>)
    requires |segs| > 0 && Unbracketed(segs)
    ensures SplitSegments(EncodeSegments(segs)) == Ok(segs)
  {
    var seg, rest := segs[0], segs[1..];
    assert EncodeSegments(segs) == EncodeSegment(seg) + EncodeSegments(rest);
    assert ']' !in seg.cigar;
    SplitStep(seg, EncodeSegments(rest));
    if rest != [] {
      SegmentsTail(segs);
      SplitRoundTrip(rest);
      assert [seg] + rest == segs;
    } else {
      assert segs == [seg];
    }
  }

  /** The segments after the first are unbracketed too, and write a non-empty text. */
  lemma SegmentsTail(segs: seq<Segment>)
    requires |segs| > 1 && Unbracketed(segs)
    ensures Unbracketed(segs[1..]) && EncodeSegments(segs[1..]) != []
  {
    var rest := segs[1..];
    forall i | 0 <= i < |rest| ensures rest[i] == segs[i + 1] { }
    assert EncodeSegments(rest) == EncodeSegment(rest[0]) + EncodeSegments(rest[1..]);
    assert |EncodeSegment(rest[0])| > 0;
  }

  lemma {:induction false} CloseBracketOfPrefix(a: string, b: string)
    requires ']' !in a && b != [] && b[0] == ']'
    ensures CloseBracket(a + b) == |a|
  {
    if a != [] {
      assert (a + b)[1..] == a[1..] + b;
      assert a[0] in a;
      CloseBracketOfPrefix(a[1..], b);
    }
  }

  // ---------------------------------------------------------------------------
  // Encoding a graph mapping

  /** One segment per path position, pairing its node id with its mapping's cigar. */
  function SegmentsOf(ids: seq<nat>, ms: seq<M.Mapping>): (segs: seq<Segment>)
    requires |ids| == |ms|
    ensures |segs| == |ids|
    ensures forall i :: 0 <= i < |segs| ==> segs[i] == Segment(ids[i], M.Cigar(ms[i]))
  {
    if ids == [] then [] else [Segment(ids[0], M.Cigar(ms[0]))] + SegmentsOf(ids[1..], ms[1..])
  }

  /** The text form of a graph mapping, one segment per path position. */
  function GetCigarString(gm: GraphMapping): (r: string)
    requires CountsAgree(gm)
    ensures |gm.mappings| > 0 ==> SplitSegments(r) == Ok(SegmentsOf(gm.path.nodeIds, gm.mappings))
  {
    var segs := SegmentsOf(gm.path.nodeIds, gm.mappings);
    assert |segs| > 0 ==> SplitSegments(EncodeSegments(segs)) == Ok(segs) by {
      if |segs| > 0 {
        assert Unbracketed(segs) by {
          forall i | 0 <= i < |segs| ensures ']' !in segs[i].cigar {
            assert segs[i].cigar == M.Cigar(gm.mappings[i]);
          }
        }
        SplitRoundTrip(segs);
      }
    }
    EncodeSegments(segs)
  }

  // ---------------------------------------------------------------------------
  // Decoding

  function NodeIdsOf(segs: seq<Segment>): (ids: seq<nat>)
    ensures |ids| == |segs|
    ensures forall i :: 0 <= i < |segs| ==> ids[i] == segs[i].nodeId
  {
    if segs == [] then [] else [segs[0].nodeId] + NodeIdsOf(segs[1..])
  }

  /** The mapping was built from the segment against the sequence of its node. */
  predicate BuiltFrom(seg: Segment, m: M.Mapping, g: Graph) {
    && HasNode(g, seg.nodeId)
    && M.Cigar(m) == seg.cigar
    && M.WellFormed(m)
    && M.Anchored(m, g.nodes[seg.nodeId])
  }

  /** The mappings were built, one per segment, from consecutive pieces of
      the read: the first starts at referenceStart, the later ones at 0. */
  predicate BuiltAll(segs: seq<Segment>, ms: seq<M.Mapping>, referenceStart: int, query: string, g: Graph) {
    && |ms| == |segs|
    && ReadOf(ms) == query
    && (forall i :: 0 <= i < |segs| ==> BuiltFrom(segs[i], ms[i], g))
    && (|segs| > 0 ==> ms[0].referenceStart == referenceStart)
    && (forall i :: 0 < i < |segs| ==> ms[i].referenceStart == 0)
  }

  /** Builds the mapping of one segment against the sequence of its node
      from the front of the read, and says how many read bases it used. */
  function BuildFirst(seg: Segment, referenceStart: int, query: string, g: Graph): (r: Result<(M.Mapping, nat)>)
    ensures r.Ok? ==> r.value.1 <= |query| && BuiltFrom(seg, r.value.0, g)
    ensures r.Ok? ==> M.ReadSlice(r.value.0) == query[..r.value.1] && r.value.0.referenceStart == referenceStart
    ensures r.Err? ==> IsParseError(r.error) || r.error == UnknownNode
  {
    if seg.nodeId >= |g.nodes| then Err(UnknownNode)
    else
      match M.ParseCigar(seg.cigar)
      case Err(e) => Err(e)
      case Ok(ops) =>
        var span := M.QueryLength(ops);
        if span > |query| then Err(QueryLengthMismatch)
        else
          match M.MakeMapping(referenceStart, seg.cigar, query[..span], g.nodes[seg.nodeId])
          case Err(e) => Err(e)
          case Ok(m) => Ok((m, span))
  }

  /** The facts BuildMappings states, carried from its tail to the whole list. */
  lemma ConsFacts(segs: seq<Segment>, referenceStart: int, query: string, g: Graph,
                  m: M.Mapping, span: nat, ms: seq<M.Mapping>)
    requires |segs| > 0
    requires BuildFirst(segs[0], referenceStart, query, g) == Ok((m, span))
    requires BuiltAll(segs[1..], ms, 0, query[span..], g)
    ensures BuiltAll(segs, [m] + ms, referenceStart, query, g)
  {
    var all := [m] + ms;
    assert all[1..] == ms;
    assert span <= |query| && M.ReadSlice(m) == query[..span];
    CutAt(query, span);
    ConsPositions(segs, m, ms, g);
  }

  lemma CutAt(s: string, k: nat)
    requires k <= |s|
    ensures s[..k] + s[k..] == s
  {
  }

  lemma ConsPositions(segs: seq<Segment>, m: M.Mapping, ms: seq<M.Mapping>, g: Graph)
    requires |segs| > 0 && |ms| == |segs| - 1
    requires forall i :: 0 <= i < |ms| ==> BuiltFrom(segs[1..][i], ms[i], g)
    requires forall i :: 0 < i < |ms| ==> ms[i].referenceStart == 0
    ensures forall i :: 0 < i < |segs| ==> BuiltFrom(segs[i], ([m] + ms)[i], g)
    ensures forall i :: 1 < i < |segs| ==> ([m] + ms)[i].referenceStart == 0
  {
    var all := [m] + ms;
    forall i | 0 < i < |segs| ensures BuiltFrom(segs[i], all[i], g) && (i > 1 ==> all[i].referenceStart == 0) {
      assert all[i] == ms[i - 1] && segs[i] == segs[1..][i - 1];
    }
  }

  /** Builds one mapping per segment against the sequence of its node, cutting
      the read into consecutive pieces from its first base on. The first
      mapping starts at referenceStart in its node, the later ones at 0; the
      read must be used up exactly. */
  function BuildMappings(segs: seq<Segment>, referenceStart: int, query: string, g: Graph): (r: Result<seq<M.Mapping>>)
    ensures r.Ok? ==> BuiltAll(segs, r.value, referenceStart, query, g)
    ensures r.Err? ==> IsParseError(r.error) || r.error == UnknownNode
  {
    if segs == [] then
      if query == [] then Ok([]) else Err(QueryLengthMismatch)
    else
      match BuildFirst(segs[0], referenceStart, query, g)
      case Err(e) => Err(e)
      case Ok((m, span)) =>
        match BuildMappings(segs[1..], 0, query[span..], g)
        case Err(e) => Err(e)
        case Ok(ms) =>
          ConsFacts(segs, referenceStart, query, g, m, span, ms);
          Ok([m] + ms)
  }

  /** Decodes the text form of a graph mapping against a graph. `offset` is
      the position of the first aligned base in the first node; the read is
      cut from its first base on. The path ends at the last base the last
      mapping uses. The result is checked like a directly built graph mapping. */
  function DecodeFromString(offset: int, encoding: string, query: string, g: Graph): (r: Result<GraphMapping>)
    ensures r.Ok? ==> Consistent(r.value)
    ensures r.Ok? ==> r.value.path.graph == g && r.value.path.startOffset == offset
    ensures r.Ok? ==> Read(r.value) == query
    ensures r.Ok? ==> forall i :: 0 < i < |r.value.mappings| ==> r.value.mappings[i].referenceStart == 0
    ensures r.Ok? ==> GetCigarString(r.value) == encoding
    ensures SplitSegments(encoding).Err? ==> r == Err(MalformedEncoding)
    ensures r.Err? ==>
      || IsParseError(r.error)
      || r.error in {UnknownNode, MissingEdge, InteriorSpanMismatch, StartOffsetMismatch, EndOffsetMismatch}
  {
    match SplitSegments(encoding)
    case Err(e) => Err(e)
    case Ok(segs) =>
      match BuildMappings(segs, offset, query, g)
      case Err(e) => Err(e)
      case Ok(ms) => Assemble(segs, ms, offset, query, g)
  }

  /** Pairs the mappings built from the segments with the path through the
      segments' nodes, from `offset` to the last base the last mapping uses,
      and checks the pair. */
  function Assemble(segs: seq<Segment>, ms: seq<M.Mapping>, offset: int, query: string, g: Graph): (r: Result<GraphMapping>)
    requires |segs| > 0 && BuiltAll(segs, ms, offset, query, g)
    ensures r.Ok? ==> Consistent(r.value) && r.value.mappings == ms
    ensures r.Ok? ==> r.value.path.graph == g && r.value.path.startOffset == offset
    ensures r.Ok? ==> GetCigarString(r.value) == EncodeSegments(segs)
    ensures r.Err? ==> r.error in {UnknownNode, MissingEdge, InteriorSpanMismatch, StartOffsetMismatch, EndOffsetMismatch}
  {
    var ids := NodeIdsOf(segs);
    match MakePath(g, offset, ids, MappingEnd(ms[|ms| - 1]))
    case Err(e) => Err(e)
    case Ok(path) =>
      SegmentsOfBuilt(segs, ms, offset, query, g);
      DecodedAnchored(segs, ms, offset, query, path);
      DecodedChecks(path, ms);
      MakeGraphMapping(path, ms)
  }

  /** The checks that can still fail on an anchored graph mapping. */
  lemma DecodedChecks(path: GraphPath, ms: seq<M.Mapping>)
    requires ValidPath(path) && CountsAgree(GraphMapping(path, ms)) && MappingsAnchored(GraphMapping(path, ms))
    ensures MakeGraphMapping(path, ms).Err? ==>
      MakeGraphMapping(path, ms).error in {InteriorSpanMismatch, StartOffsetMismatch, EndOffsetMismatch}
  {
  }

  /** Mappings built from the segments of a non-empty encoding agree in
      number with the path through the segments' nodes and are anchored on
      those nodes. */
  lemma DecodedAnchored(segs: seq<Segment>, ms: seq<M.Mapping>, referenceStart: int, query: string, path: GraphPath)
    requires BuiltAll(segs, ms, referenceStart, query, path.graph)
    requires ValidPath(path) && path.nodeIds == NodeIdsOf(segs)
    ensures CountsAgree(GraphMapping(path, ms)) && MappingsAnchored(GraphMapping(path, ms))
  {
    forall i | 0 <= i < |ms| ensures M.WellFormed(ms[i]) && M.Anchored(ms[i], NodeSeq(path, i)) {
      assert BuiltFrom(segs[i], ms[i], path.graph);
    }
  }

  /** Mappings built from segments give those segments back, paired with
      the segments' node ids. */
  lemma SegmentsOfBuilt(segs: seq<Segment>, ms: seq<M.Mapping>, referenceStart: int, query: string, g: Graph)
    requires BuiltAll(segs, ms, referenceStart, query, g)
    ensures SegmentsOf(NodeIdsOf(segs), ms) == segs
  {
    var back := SegmentsOf(NodeIdsOf(segs), ms);
    forall i | 0 <= i < |segs| ensures back[i] == segs[i] {
      assert BuiltFrom(segs[i], ms[i], g);
    }
  }

  // ---------------------------------------------------------------------------
  // Round trips

  /** Building from a segment written for a well-formed anchored mapping
      rebuilds that mapping and goes on with the rest of the read. */
  lemma BuildStep(id: nat, m: M.Mapping, segs: seq<Segment>, referenceStart: nat, rest: string, g: Graph)
    requires HasNode(g, id) && M.WellFormed(m) && M.Anchored(m, g.nodes[id])
    requires m.referenceStart == referenceStart
    requires BuildMappings(segs, 0, rest, g).Ok?
    ensures BuildMappings([Segment(id, M.Cigar(m))] + segs, referenceStart, M.ReadSlice(m) + rest, g)
         == Ok([m] + BuildMappings(segs, 0, rest, g).value)
  {
    var all := [Segment(id, M.Cigar(m))] + segs;
    assert all[0] == Segment(id, M.Cigar(m)) && all[1..] == segs;
    M.MappingRoundTrip(m, g.nodes[id]);
    var query := M.ReadSlice(m) + rest;
    var span := M.QuerySpan(m);
    assert query[..span] == M.ReadSlice(m);
    assert query[span..] == rest;
    assert BuildFirst(all[0], referenceStart, query, g) == Ok((m, span));
  }

  /** Every mapping is well formed and anchored on the node of the same
      position; all but the first start at the beginning of their node. */
  predicate Rebuildable(ids: seq<nat>, ms: seq<M.Mapping>, g: Graph) {
    && |ids| == |ms|
    && (forall i :: 0 <= i < |ms| ==> HasNode(g, ids[i]) && M.WellFormed(ms[i]) && M.Anchored(ms[i], g.nodes[ids[i]]))
    && (forall i :: 0 < i < |ms| ==> ms[i].referenceStart == 0)
  }

  lemma RebuildableTail(ids: seq<nat>, ms: seq<M.Mapping>, g: Graph)
    requires Rebuildable(ids, ms, g) && ms != []
    ensures Rebuildable(ids[1..], ms[1..], g)
    ensures |ms| > 1 ==> ms[1..][0].referenceStart == 0
  {
    forall i | 0 <= i < |ms| - 1 ensures ms[1..][i] == ms[i + 1] && ids[1..][i] == ids[i + 1] { }
  }

  lemma {:induction false} BuildOfMappings(ids: seq<nat>, ms: seq<M.Mapping>, referenceStart: nat, g: Graph)
    requires Rebuildable(ids, ms, g)
    requires |ms| > 0 ==> ms[0].referenceStart == referenceStart
    ensures BuildMappings(SegmentsOf(ids, ms), referenceStart, ReadOf(ms), g) == Ok(ms)
  {
    if ms != [] {
      RebuildableTail(ids, ms, g);
      BuildOfMappings(ids[1..], ms[1..], 0, g);
      BuildCons(ids, ms, referenceStart, g);
    }
  }

  /** Rebuilding the first mapping in front of the rebuilt rest. */
  lemma BuildCons(ids: seq<nat>, ms: seq<M.Mapping>, referenceStart: nat, g: Graph)
    requires |ids| == |ms| > 0 && HasNode(g, ids[0])
    requires M.WellFormed(ms[0]) && M.Anchored(ms[0], g.nodes[ids[0]]) && ms[0].referenceStart == referenceStart
    requires BuildMappings(SegmentsOf(ids[1..], ms[1..]), 0, ReadOf(ms[1..]), g) == Ok(ms[1..])
    ensures BuildMappings(SegmentsOf(ids, ms), referenceStart, ReadOf(ms), g) == Ok(ms)
  {
    var tailIds, tail := ids[1..], ms[1..];
    assert SegmentsOf(ids, ms) == [Segment(ids[0], M.Cigar(ms[0]))] + SegmentsOf(tailIds, tail);
    BuildStep(ids[0], ms[0], SegmentsOf(tailIds, tail), referenceStart, ReadOf(tail), g);
    assert [ms[0]] + tail == ms;
  }

  /** Encoding a graph mapping whose later mappings start at the beginning of
      their nodes, and decoding the text against its graph, its start offset
      and its read, gives back the same graph mapping. */
  lemma EncodeThenDecode(gm: GraphMapping)
    requires Consistent(gm)
    requires forall i :: 0 < i < |gm.mappings| ==> gm.mappings[i].referenceStart == 0
    ensures DecodeFromString(gm.path.startOffset, GetCigarString(gm), Read(gm), gm.path.graph) == Ok(gm)
  {
    var p := gm.path;
    var ms := gm.mappings;
    var segs := SegmentsOf(p.nodeIds, ms);
    assert SplitSegments(GetCigarString(gm)) == Ok(segs);
    assert Rebuildable(p.nodeIds, ms, p.graph) by {
      assert forall i :: 0 <= i < |ms| ==> M.Anchored(ms[i], NodeSeq(p, i));
    }
    BuildOfMappings(p.nodeIds, ms, p.startOffset, p.graph);
    AssembleOfConsistent(gm, segs);
  }

  /** Assembling the segments of a consistent graph mapping with its own
      mappings gives it back. */
  lemma AssembleOfConsistent(gm: GraphMapping, segs: seq<Segment>)
    requires Consistent(gm) && segs == SegmentsOf(gm.path.nodeIds, gm.mappings)
    requires BuiltAll(segs, gm.mappings, gm.path.startOffset, Read(gm), gm.path.graph)
    ensures Assemble(segs, gm.mappings, gm.path.startOffset, Read(gm), gm.path.graph) == Ok(gm)
  {
    var p, ms := gm.path, gm.mappings;
    assert NodeIdsOf(segs) == p.nodeIds;
    assert MakePath(p.graph, p.startOffset, p.nodeIds, MappingEnd(ms[|ms| - 1])) == Ok(p);
  }
}
