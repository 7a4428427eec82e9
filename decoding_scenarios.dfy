/** The decoding tests of graph mappings: each decoded alignment is
    written out as a value, shown consistent and shown to encode to the
    text it is decoded from, so the encode-then-decode round trip gives
    the decoder's result; the tests' questions are then answered on it. */
module ScenarioDecoding {
  import opened Results
  import opened Decimal
  import opened Graphs
  import opened Paths
  import opened Mappings
  import GM = GraphMappings
  import opened GraphMappingCodec
  import opened Scenarios

  // ---------------------------------------------------------------------------
  // The read AAAATTCCC on the deletion graph: four matches on the left flank,
  // then two matches and three soft-clipped bases on the middle node

  function ClipOp(s: string): Operation {
    Operation(SoftClip, |s|, s, "")
  }

  function ClippedTail(): Mapping {
    Mapping(0, [MatchOp("TT"), ClipOp("CCC")])
  }

  lemma ClippedTailShape()
    ensures WellFormed(ClippedTail())
    ensures Cigar(ClippedTail()) == "2M3S" && ReadSlice(ClippedTail()) == "TTCCC"
    ensures NumMatches(ClippedTail()) == 2 && QuerySpan(ClippedTail()) == 5 && ReferenceSpan(ClippedTail()) == 2
    ensures Query(ClippedTail()) == "TT" && Reference(ClippedTail()) == "TT"
  {
    var ops := ClippedTail().operations;
    assert ops[1..] == [ClipOp("CCC")];
    var specs := [OpSpec(2, Match), OpSpec(3, SoftClip)];
    assert Specs(ops) == specs;
    assert specs[1..] == [OpSpec(3, SoftClip)];
    assert EncodeCigar([OpSpec(3, SoftClip)]) == "3S";
    assert EncodeCigar(specs) == "2M3S";
    assert QueryPieces(ops) == "TTCCC";
    assert ReferencePieces(ops) == "TT";
    assert AlignedQueryPieces(ops) == "TT";
  }

  lemma ClippedTailAnchored(node: string)
    requires 2 <= |node| && node[.. 2] == "TT"
    ensures Anchored(ClippedTail(), node)
  {
    ClippedTailShape();
    assert node[0 .. 2] == node[.. 2];
  }

  function ClippedGraph(middle: string): Graph {
    MakeDeletionGraph("AAAA", middle, "TTTT")
  }

  /** The alignment of AAAATTCCC the encoding 0[4M]1[2M3S] describes. */
  function ClippedRead(middle: string): GM.GraphMapping {
    GM.GraphMapping(GraphPath(ClippedGraph(middle), 0, [0, 1], 1), [Mapping(0, [MatchOp("AAAA")]), ClippedTail()])
  }

  lemma ClippedReadConsistent(middle: string)
    requires 2 <= |middle| && middle[.. 2] == "TT"
    ensures GM.Consistent(ClippedRead(middle))
    ensures ClippedRead(middle).mappings[1].referenceStart == 0
  {
    var gm := ClippedRead(middle);
    assert ValidPath(gm.path) by {
      assert HasEdge(gm.path.graph, 0, 1);
    }
    MatchRun(0, "AAAA");
    assert "AAAA"[0 .. 4] == "AAAA";
    ClippedTailShape();
    ClippedTailAnchored(middle);
    assert NodeSeq(gm.path, 0) == "AAAA" && NodeSeq(gm.path, 1) == middle;
  }

  /** The node id text, cigar and read slice of each position. */
  lemma ClippedPieces(middle: string)
    ensures var gm := ClippedRead(middle);
      && (forall i :: 0 <= i < 2 ==> NatToString(gm.path.nodeIds[i]) == ["0", "1"][i])
      && (forall i :: 0 <= i < 2 ==> Cigar(gm.mappings[i]) == ["4M", "2M3S"][i])
      && (forall i :: 0 <= i < 2 ==> ReadSlice(gm.mappings[i]) == ["AAAA", "TTCCC"][i])
  {
    SmallNumerals();
    MatchRun(0, "AAAA");
    MatchCigar(4);
    ClippedTailShape();
  }

  lemma ClippedTexts()
    ensures Bracketed(["0", "1"], ["4M", "2M3S"]) == "0[4M]1[2M3S]"
    ensures Concat(["AAAA", "TTCCC"]) == "AAAATTCCC"
  {
  }

  lemma ClippedReadText(middle: string)
    ensures GetCigarString(ClippedRead(middle)) == "0[4M]1[2M3S]"
    ensures GM.Read(ClippedRead(middle)) == "AAAATTCCC"
  {
    ClippedPieces(middle);
    var gm := ClippedRead(middle);
    EncodeAs(gm.path.nodeIds, gm.mappings, ["0", "1"], ["4M", "2M3S"]);
    ReadAs(gm.mappings, ["AAAA", "TTCCC"]);
    ClippedTexts();
  }

  /** Decoding 0[4M]1[2M3S] with the read AAAATTCCC at offset 0 of the
      left flank gives the alignment above, whatever the middle node holds
      past its first two bases. */
  lemma DecodeClippedRead(middle: string)
    requires 2 <= |middle| && middle[.. 2] == "TT"
    ensures DecodeFromString(0, "0[4M]1[2M3S]", "AAAATTCCC", ClippedGraph(middle)) == Ok(ClippedRead(middle))
  {
    ClippedReadConsistent(middle);
    ClippedReadText(middle);
    EncodeThenDecode(ClippedRead(middle));
  }

  // ---------------------------------------------------------------------------
  // What the tests ask of the decoded alignment

  /** Four matches on the left flank and two on the middle node. */
  lemma ClippedReadMatches()
    ensures var r := DecodeFromString(0, "0[4M]1[2M3S]", "AAAATTCCC", MakeDeletionGraph("AAAA", "TTGG", "TTTT"));
      r.Ok? && GM.NumMatches(r.value) == 6
  {
    DecodeClippedRead("TTGG");
    ClippedReadCounts();
  }

  /** The aligned read bases and the node bases they align to, soft clip excluded. */
  lemma ClippedReadSequences()
    ensures var r := DecodeFromString(0, "0[4M]1[2M3S]", "AAAATTCCC", MakeDeletionGraph("AAAA", "TTGG", "TTTT"));
      r.Ok? && GM.Query(r.value) == "AAAATT" && GM.Reference(r.value) == "AAAATT"
  {
    DecodeClippedRead("TTGG");
    ClippedReadCounts();
  }

  /** All nine read bases count towards the query span, six node bases towards the reference span. */
  lemma ClippedReadSpans()
    ensures var r := DecodeFromString(0, "0[4M]1[2M3S]", "AAAATTCCC", MakeDeletionGraph("AAAA", "TTGG", "TTTT"));
      r.Ok? && GM.QuerySpan(r.value) == 9 && GM.ReferenceSpan(r.value) == 6
  {
    DecodeClippedRead("TTGG");
    ClippedReadCounts();
  }

  lemma ClippedReadCounts()
    ensures var gm := ClippedRead("TTGG");
      && GM.NumMatches(gm) == 6 && GM.QuerySpan(gm) == 9 && GM.ReferenceSpan(gm) == 6
      && GM.Query(gm) == "AAAATT" && GM.Reference(gm) == "AAAATT"
  {
    var ms := ClippedRead("TTGG").mappings;
    var m0 := ms[0];
    assert Specs(m0.operations) == [OpSpec(4, Match)];
    assert AlignedQueryPieces(m0.operations) == "AAAA";
    assert ReferencePieces(m0.operations) == "AAAA";
    ClippedTailShape();
    FoldFirst(ms);
    FoldFirst(ms[1..]);
    assert "AAAA" + ("TT" + "") == "AAAATT";
  }

  /** Position i holds the i-th node alignment; the second equals the one
      built against TTGG although its node reads TTGC, since both agree on
      the two bases it aligns. */
  lemma ClippedReadPositions()
    ensures var r := DecodeFromString(0, "0[4M]1[2M3S]", "AAAATTCCC", MakeDeletionGraph("AAAA", "TTGC", "TTTT"));
      && r.Ok?
      && GM.At(r.value, 0) == MakeMapping(0, "4M", "AAAA", "AAAA")
      && GM.At(r.value, 1) == MakeMapping(0, "2M3S", "TTCCC", "TTGG")
  {
    DecodeClippedRead("TTGC");
    WholeNode("AAAA");
    ClippedTailMapping();
  }

  /** Two matches at the start of TTGG followed by three soft-clipped bases. */
  lemma ClippedTailMapping()
    ensures MakeMapping(0, "2M3S", "TTCCC", "TTGG") == Ok(ClippedTail())
  {
    ClippedTailShape();
    ClippedTailAnchored("TTGG");
    MappingRoundTrip(ClippedTail(), "TTGG");
  }

  // ---------------------------------------------------------------------------
  // Reads on the repeat graph AAAACC -> CCG (-> CCG ...) -> ATTT

  function StrGraph(): Graph {
    MakeStrGraph("AAAACC", "CCG", "ATTT")
  }

  /** The alignment of CCCCGCCGAT that 0[2M]1[3M]1[3M]2[2M] describes from
      offset 4 of the left flank: two repeat units, then two bases of the right flank. */
  function RepeatRead(): GM.GraphMapping {
    GM.GraphMapping(GraphPath(StrGraph(), 4, [0, 1, 1, 2], 1),
      [Mapping(4, [MatchOp("CC")]), Mapping(0, [MatchOp("CCG")]), Mapping(0, [MatchOp("CCG")]), Mapping(0, [MatchOp("AT")])])
  }

  /** The alignment of ACCCCG that 0[3M]1[3M] describes from offset 3 of the left flank. */
  function FlankRead(): GM.GraphMapping {
    GM.GraphMapping(GraphPath(StrGraph(), 3, [0, 1], 2), [Mapping(3, [MatchOp("ACC")]), Mapping(0, [MatchOp("CCG")])])
  }

  lemma StrPieces()
    ensures "AAAACC"[4 .. 6] == "CC" && "AAAACC"[3 .. 6] == "ACC"
    ensures "CCG"[0 .. 3] == "CCG" && "ATTT"[0 .. 2] == "AT"
  {
  }

  lemma RepeatPathValid()
    ensures ValidPath(RepeatRead().path)
  {
    var p := RepeatRead().path;
    forall i | 0 <= i < |p.nodeIds| - 1 ensures HasEdge(p.graph, p.nodeIds[i], p.nodeIds[i + 1]) {
      assert i == 0 || i == 1 || i == 2;
    }
  }

  lemma RepeatMappingsAnchored()
    ensures ValidPath(RepeatRead().path)
    ensures GM.MappingsAnchored(RepeatRead())
  {
    RepeatPathValid();
    var gm := RepeatRead();
    StrPieces();
    MatchShape(4, 2, "AAAACC");
    MatchShape(0, 3, "CCG");
    MatchShape(0, 2, "ATTT");
    forall i | 0 <= i < 4 ensures WellFormed(gm.mappings[i]) && Anchored(gm.mappings[i], NodeSeq(gm.path, i)) {
      assert i == 0 || i == 1 || i == 2 || i == 3;
    }
  }

  lemma RepeatReadConsistent()
    ensures GM.Consistent(RepeatRead())
    ensures forall i :: 0 < i < |RepeatRead().mappings| ==> RepeatRead().mappings[i].referenceStart == 0
  {
    RepeatMappingsAnchored();
    var gm := RepeatRead();
    MatchRun(0, "CCG");
    MatchRun(0, "AT");
    assert GM.InteriorsSpanNodes(gm) by {
      assert NodeSeq(gm.path, 1) == "CCG" && NodeSeq(gm.path, 2) == "CCG";
    }
    assert GM.EndAgrees(gm);
  }

  lemma FlankReadConsistent()
    ensures GM.Consistent(FlankRead())
    ensures FlankRead().mappings[1].referenceStart == 0
  {
    var gm := FlankRead();
    assert ValidPath(gm.path) by {
      assert HasEdge(gm.path.graph, 0, 1);
    }
    StrPieces();
    MatchShape(3, 3, "AAAACC");
    MatchShape(0, 3, "CCG");
    assert NodeSeq(gm.path, 0) == "AAAACC" && NodeSeq(gm.path, 1) == "CCG";
  }

  lemma RepeatReadText()
    ensures GetCigarString(RepeatRead()) == "0[2M]1[3M]1[3M]2[2M]"
    ensures GM.Read(RepeatRead()) == "CCCCGCCGAT"
  {
    RepeatPieces();
    var gm := RepeatRead();
    EncodeAs(gm.path.nodeIds, gm.mappings, ["0", "1", "1", "2"], ["2M", "3M", "3M", "2M"]);
    ReadAs(gm.mappings, ["CC", "CCG", "CCG", "AT"]);
    RepeatTexts();
  }

  /** The node id text, cigar and read slice of each position. */
  lemma RepeatPieces()
    ensures var gm := RepeatRead();
      && (forall i :: 0 <= i < 4 ==> NatToString(gm.path.nodeIds[i]) == ["0", "1", "1", "2"][i])
      && (forall i :: 0 <= i < 4 ==> Cigar(gm.mappings[i]) == ["2M", "3M", "3M", "2M"][i])
      && (forall i :: 0 <= i < 4 ==> ReadSlice(gm.mappings[i]) == ["CC", "CCG", "CCG", "AT"][i])
  {
    SmallNumerals();
    StrPieces();
    MatchShape(4, 2, "AAAACC");
    MatchShape(0, 3, "CCG");
    MatchShape(0, 2, "ATTT");
  }

  lemma RepeatTexts()
    ensures Bracketed(["0", "1", "1", "2"], ["2M", "3M", "3M", "2M"]) == "0[2M]1[3M]1[3M]2[2M]"
    ensures Concat(["CC", "CCG", "CCG", "AT"]) == "CCCCGCCGAT"
  {
  }

  lemma FlankReadText()
    ensures GetCigarString(FlankRead()) == "0[3M]1[3M]"
    ensures GM.Read(FlankRead()) == "ACCCCG"
  {
    var gm := FlankRead();
    SmallNumerals();
    StrPieces();
    MatchShape(3, 3, "AAAACC");
    MatchShape(0, 3, "CCG");
    EncodeAs(gm.path.nodeIds, gm.mappings, ["0", "1"], ["3M", "3M"]);
    ReadAs(gm.mappings, ["ACC", "CCG"]);
    FlankTexts();
  }

  lemma FlankTexts()
    ensures Bracketed(["0", "1"], ["3M", "3M"]) == "0[3M]1[3M]"
    ensures Concat(["ACC", "CCG"]) == "ACCCCG"
  {
  }

  lemma DecodeRepeatRead()
    ensures DecodeFromString(4, "0[2M]1[3M]1[3M]2[2M]", "CCCCGCCGAT", StrGraph()) == Ok(RepeatRead())
  {
    RepeatReadConsistent();
    RepeatReadText();
    EncodeThenDecode(RepeatRead());
  }

  lemma DecodeFlankRead()
    ensures DecodeFromString(3, "0[3M]1[3M]", "ACCCCG", StrGraph()) == Ok(FlankRead())
  {
    FlankReadConsistent();
    FlankReadText();
    EncodeThenDecode(FlankRead());
  }

  /** The left flank is visited at position 0, the repeat unit at positions
      1 and 2, the right flank at position 3. */
  lemma RepeatReadIndexes()
    ensures var r := DecodeFromString(4, "0[2M]1[3M]1[3M]2[2M]", "CCCCGCCGAT", MakeStrGraph("AAAACC", "CCG", "ATTT"));
      && r.Ok?
      && GM.GetIndexesOfNode(r.value, 0) == [0]
      && GM.GetIndexesOfNode(r.value, 1) == [1, 2]
      && GM.GetIndexesOfNode(r.value, 2) == [3]
  {
    DecodeRepeatRead();
    RepeatIndexes();
  }

  lemma RepeatIndexes()
    ensures GM.GetIndexesOfNode(RepeatRead(), 0) == [0]
    ensures GM.GetIndexesOfNode(RepeatRead(), 1) == [1, 2]
    ensures GM.GetIndexesOfNode(RepeatRead(), 2) == [3]
  {
    RepeatVisits(RepeatRead().path.nodeIds);
  }

  lemma RepeatVisits(ids: seq<nat>)
    requires ids == [0, 1, 1, 2]
    ensures GM.IndexesOf(ids, 0) == [0] && GM.IndexesOf(ids, 1) == [1, 2] && GM.IndexesOf(ids, 2) == [3]
  {
    assert ids[0] == 0 && ids[1] == 1 && ids[2] == 1 && ids[3] == 2;
    GM.IndexesOfUnique(ids, 0, [0]);
    GM.IndexesOfUnique(ids, 1, [1, 2]);
    GM.IndexesOfUnique(ids, 2, [3]);
  }

  /** The right flank and a node id the graph does not have are never visited. */
  lemma FlankReadMissingIndexes()
    ensures var r := DecodeFromString(3, "0[3M]1[3M]", "ACCCCG", MakeStrGraph("AAAACC", "CCG", "ATTT"));
      && r.Ok?
      && GM.GetIndexesOfNode(r.value, 2) == []
      && GM.GetIndexesOfNode(r.value, 4) == []
  {
    DecodeFlankRead();
    FlankMissing();
  }

  lemma FlankMissing()
    ensures GM.GetIndexesOfNode(FlankRead(), 2) == [] && GM.GetIndexesOfNode(FlankRead(), 4) == []
  {
    FlankUnvisited(FlankRead().path.nodeIds);
  }

  lemma FlankVisits(ids: seq<nat>)
    requires ids == [0, 1]
    ensures GM.IndexesOf(ids, 0) == [0] && GM.IndexesOf(ids, 1) == [1]
  {
    GM.IndexesOfUnique(ids, 0, [0]);
    GM.IndexesOfUnique(ids, 1, [1]);
  }

  lemma FlankUnvisited(ids: seq<nat>)
    requires ids == [0, 1]
    ensures forall n :: 2 <= n ==> GM.IndexesOf(ids, n) == []
  {
    forall n | 2 <= n ensures GM.IndexesOf(ids, n) == [] {
      GM.UnvisitedNode(ids, n);
    }
  }

  /** The alignment overlaps the two nodes it visits and no other. */
  lemma FlankReadOverlaps()
    ensures var r := DecodeFromString(3, "0[3M]1[3M]", "ACCCCG", MakeStrGraph("AAAACC", "CCG", "ATTT"));
      && r.Ok?
      && GM.OverlapsNode(r.value, 0) && GM.OverlapsNode(r.value, 1)
      && !GM.OverlapsNode(r.value, 2) && !GM.OverlapsNode(r.value, 3)
  {
    DecodeFlankRead();
    FlankOverlapsNodes();
  }

  lemma FlankOverlapsNodes()
    ensures GM.OverlapsNode(FlankRead(), 0) && GM.OverlapsNode(FlankRead(), 1)
    ensures !GM.OverlapsNode(FlankRead(), 2) && !GM.OverlapsNode(FlankRead(), 3)
  {
    FlankVisits(FlankRead().path.nodeIds);
    FlankUnvisited(FlankRead().path.nodeIds);
  }

  /** Encoding the decoded alignment gives back the text it was decoded from. */
  lemma RepeatReadEncoding()
    ensures var r := DecodeFromString(4, "0[2M]1[3M]1[3M]2[2M]", "CCCCGCCGAT", MakeStrGraph("AAAACC", "CCG", "ATTT"));
      r.Ok? && GetCigarString(r.value) == "0[2M]1[3M]1[3M]2[2M]"
  {
    DecodeRepeatRead();
  }
}
