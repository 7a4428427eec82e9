/** The construction tests of graph mappings on the deletion graph, with
    the verdicts the tests expect, and the building blocks the decoding
    tests share: single runs of matches and the unfolding of the folds. */
module Scenarios {
  import opened Results
  import opened Decimal
  import opened Graphs
  import opened Paths
  import opened Mappings
  import GM = GraphMappings
  import opened GraphMappingCodec

  // ---------------------------------------------------------------------------
  // Building blocks

  /** A run of matches aligning s to the same bases of its node. */
  function MatchOp(s: string): Operation {
    Operation(Match, |s|, s, s)
  }

  lemma SmallNumerals()
    ensures NatToString(0) == "0" && NatToString(1) == "1" && NatToString(2) == "2"
    ensures NatToString(3) == "3" && NatToString(4) == "4"
  {
    assert DigitChar(0) == '0' && DigitChar(1) == '1' && DigitChar(2) == '2';
    assert DigitChar(3) == '3' && DigitChar(4) == '4';
  }

  /** What a single run of matches over q holds and spans. */
  lemma MatchRun(start: nat, q: string)
    requires 0 < |q|
    ensures var m := Mapping(start, [MatchOp(q)]);
      && WellFormed(m)
      && Specs(m.operations) == [OpSpec(|q|, Match)]
      && ReadSlice(m) == q && Query(m) == q && Reference(m) == q
      && ReferenceSpan(m) == |q| && QuerySpan(m) == |q| && NumMatches(m) == |q|
  {
    var ops := [MatchOp(q)];
    assert ops[1..] == [];
    assert Specs(ops) == [OpSpec(|q|, Match)];
    assert q + "" == q;
    assert QueryPieces(ops) == q + QueryPieces([]);
    assert AlignedQueryPieces(ops) == q + AlignedQueryPieces([]);
    assert ReferencePieces(ops) == q + ReferencePieces([]);
    var specs := [OpSpec(|q|, Match)];
    assert specs[1..] == [];
    assert ReferenceLength(specs) == |q| + ReferenceLength([]);
    assert QueryLength(specs) == |q| + QueryLength([]);
    assert KindTotal(specs, Match) == |q| + KindTotal([], Match);
  }

  lemma MatchCigar(n: nat)
    ensures EncodeCigar([OpSpec(n, Match)]) == NatToString(n) + "M"
  {
    var ops := [OpSpec(n, Match)];
    assert ops[1..] == [];
    assert EncodeCigar(ops) == NatToString(n) + [OpChar(Match)] + EncodeCigar([]);
  }

  /** A run of n matches at start is a well-formed mapping anchored to its node. */
  lemma MatchShape(start: nat, n: nat, node: string)
    requires 0 < n && start + n <= |node|
    ensures var m := Mapping(start, [MatchOp(node[start .. start + n])]);
      && WellFormed(m) && Anchored(m, node)
      && Cigar(m) == NatToString(n) + "M"
      && ReadSlice(m) == node[start .. start + n]
  {
    var q := node[start .. start + n];
    var m := Mapping(start, [MatchOp(q)]);
    assert |q| == n;
    MatchRun(start, q);
    assert ReferenceSpan(m) == n && Reference(m) == q;
    MatchCigar(n);
    assert Cigar(m) == EncodeCigar([OpSpec(n, Match)]);
  }

  /** A mapping made of one run of matches, written "<length>M". */
  lemma MatchMapping(start: nat, n: nat, node: string)
    requires 0 < n && start + n <= |node|
    ensures MakeMapping(start, NatToString(n) + "M", node[start .. start + n], node)
         == Ok(Mapping(start, [MatchOp(node[start .. start + n])]))
  {
    MatchShape(start, n, node);
    MappingRoundTrip(Mapping(start, [MatchOp(node[start .. start + n])]), node);
  }

  /** The text of segments whose node ids and cigars are already written out. */
  function Bracketed(ids: seq<string>, cigars: seq<string>): string
    requires |ids| == |cigars|
  {
    if ids == [] then "" else ids[0] + "[" + cigars[0] + "]" + Bracketed(ids[1..], cigars[1..])
  }

  /** The encoding of a path and its mappings, given each node id's and each cigar's text. */
  lemma {:induction false} EncodeAs(ids: seq<nat>, ms: seq<Mapping>, idTexts: seq<string>, cigars: seq<string>)
    requires |ids| == |ms| == |idTexts| == |cigars|
    requires forall i :: 0 <= i < |ids| ==> NatToString(ids[i]) == idTexts[i] && Cigar(ms[i]) == cigars[i]
    ensures EncodeSegments(SegmentsOf(ids, ms)) == Bracketed(idTexts, cigars)
    decreases |ids|
  {
    if ids != [] {
      EncodeAs(ids[1..], ms[1..], idTexts[1..], cigars[1..]);
    }
  }

  function Concat(pieces: seq<string>): string {
    if pieces == [] then "" else pieces[0] + Concat(pieces[1..])
  }

  /** The read bases of mappings whose read slices are already written out. */
  lemma {:induction false} ReadAs(ms: seq<Mapping>, slices: seq<string>)
    requires |ms| == |slices|
    requires forall i :: 0 <= i < |ms| ==> ReadSlice(ms[i]) == slices[i]
    ensures GM.ReadOf(ms) == Concat(slices)
    decreases |ms|
  {
    if ms != [] {
      ReadAs(ms[1..], slices[1..]);
    }
  }

  /** The folds over the mappings are the first mapping's value combined with the rest's. */
  lemma FoldFirst(ms: seq<Mapping>)
    requires |ms| > 0
    ensures GM.ReadOf(ms) == ReadSlice(ms[0]) + GM.ReadOf(ms[1..])
    ensures GM.QueryOf(ms) == Query(ms[0]) + GM.QueryOf(ms[1..])
    ensures GM.ReferenceOf(ms) == Reference(ms[0]) + GM.ReferenceOf(ms[1..])
    ensures GM.MatchesOf(ms) == NumMatches(ms[0]) + GM.MatchesOf(ms[1..])
    ensures GM.QuerySpanOf(ms) == QuerySpan(ms[0]) + GM.QuerySpanOf(ms[1..])
    ensures GM.ReferenceSpanOf(ms) == ReferenceSpan(ms[0]) + GM.ReferenceSpanOf(ms[1..])
  {
  }

  // ---------------------------------------------------------------------------
  // Construction on the deletion graph AAAA -> TTGG -> TTTT (AAAA -> TTTT)

  function DeletionGraph(): Graph {
    MakeDeletionGraph("AAAA", "TTGG", "TTTT")
  }

  /** The last base of the left flank. */
  lemma LastBaseOfLeftFlank()
    ensures MakeMapping(3, "1M", "A", "AAAA") == Ok(Mapping(3, [MatchOp("A")]))
  {
    MatchMapping(3, 1, "AAAA");
    assert NatToString(1) + "M" == "1M";
    assert "AAAA"[3 .. 4] == "A";
  }

  /** The last two bases of the left flank. */
  lemma LastTwoOfLeftFlank()
    ensures MakeMapping(2, "2M", "AA", "AAAA") == Ok(Mapping(2, [MatchOp("AA")]))
  {
    MatchMapping(2, 2, "AAAA");
    assert NatToString(2) + "M" == "2M";
    assert "AAAA"[2 .. 4] == "AA";
  }

  /** Four matches over the whole of a four-base node. */
  lemma WholeNode(node: string)
    requires |node| == 4
    ensures MakeMapping(0, "4M", node, node) == Ok(Mapping(0, [MatchOp(node)]))
  {
    MatchMapping(0, 4, node);
    assert NatToString(4) + "M" == "4M";
    assert node[0 .. 4] == node;
  }

  /** The third base of the middle node. */
  lemma ThirdBaseOfMiddleNode()
    ensures MakeMapping(2, "1M", "G", "TTGG") == Ok(Mapping(2, [MatchOp("G")]))
  {
    MatchMapping(2, 1, "TTGG");
    assert NatToString(1) + "M" == "1M";
    assert "TTGG"[2 .. 3] == "G";
  }

  /** The first three bases of the right flank. */
  lemma FirstThreeOfRightFlank()
    ensures MakeMapping(0, "3M", "TTT", "TTTT") == Ok(Mapping(0, [MatchOp("TTT")]))
  {
    MatchMapping(0, 3, "TTTT");
    assert NatToString(3) + "M" == "3M";
    assert "TTTT"[0 .. 3] == "TTT";
  }

  /** The path 0 -> 1 -> 2 through the deletion graph. */
  function ThroughPath(startOffset: int, endOffset: int): GraphPath {
    GraphPath(DeletionGraph(), startOffset, [0, 1, 2], endOffset)
  }

  lemma ThroughPathValid(startOffset: int, endOffset: int)
    ensures ValidPath(ThroughPath(startOffset, endOffset))
  {
    var p := ThroughPath(startOffset, endOffset);
    forall i | 0 <= i < |p.nodeIds| - 1 ensures HasEdge(p.graph, p.nodeIds[i], p.nodeIds[i + 1]) {
      assert p.nodeIds[i] == i && p.nodeIds[i + 1] == i + 1;
    }
  }

  /** Runs of matches through the three nodes of the deletion graph, over
      a from `start` in the left flank, b and c from the first base of the
      middle node and of the right flank: the checks they pass and fail. */
  lemma ThroughRuns(startOffset: int, endOffset: int, start: nat, a: string, b: string, c: string)
    requires 0 < |a| && start + |a| <= 4 && a == "AAAA"[start .. start + |a|]
    requires 0 < |b| <= 4 && b == "TTGG"[0 .. |b|]
    requires 0 < |c| <= 4 && c == "TTTT"[0 .. |c|]
    ensures var gm := GM.GraphMapping(ThroughPath(startOffset, endOffset),
                                      [Mapping(start, [MatchOp(a)]), Mapping(0, [MatchOp(b)]), Mapping(0, [MatchOp(c)])]);
      && ValidPath(gm.path) && GM.CountsAgree(gm) && GM.MappingsAnchored(gm)
      && (GM.InteriorsSpanNodes(gm) <==> |b| == 4)
      && (GM.StartAgrees(gm) <==> start == startOffset)
      && (GM.EndAgrees(gm) <==> |c| - 1 == endOffset)
  {
    ThroughPathValid(startOffset, endOffset);
    var p := ThroughPath(startOffset, endOffset);
    MatchRun(start, a);
    MatchRun(0, b);
    MatchRun(0, c);
    assert NodeSeq(p, 0) == "AAAA" && NodeSeq(p, 1) == "TTGG" && NodeSeq(p, 2) == "TTTT";
  }

  /** A path over all three nodes, starting at the last base of the left
      flank and ending at the last base of the right flank, is accepted. */
  lemma ThroughPathAccepted()
    ensures var a := MakeMapping(3, "1M", "A", "AAAA");
      var b := MakeMapping(0, "4M", "TTGG", "TTGG");
      var c := MakeMapping(0, "4M", "TTTT", "TTTT");
      && a.Ok? && b.Ok? && c.Ok?
      && GM.MakeGraphMapping(ThroughPath(3, 3), [a.value, b.value, c.value]).Ok?
  {
    LastBaseOfLeftFlank();
    WholeNode("TTGG");
    WholeNode("TTTT");
    ThroughRunsAccepted();
  }

  lemma ThroughRunsAccepted()
    ensures GM.MakeGraphMapping(ThroughPath(3, 3), [Mapping(3, [MatchOp("A")]), Mapping(0, [MatchOp("TTGG")]), Mapping(0, [MatchOp("TTTT")])]).Ok?
  {
    assert "AAAA"[3 .. 4] == "A" && "TTGG"[0 .. 4] == "TTGG" && "TTTT"[0 .. 4] == "TTTT";
    ThroughRuns(3, 3, 3, "A", "TTGG", "TTTT");
  }

  /** A path inside the middle node, from offset 2 to offset 2, is accepted. */
  lemma InnerPathAccepted()
    ensures var a := MakeMapping(2, "1M", "G", "TTGG");
      a.Ok? && GM.MakeGraphMapping(GraphPath(DeletionGraph(), 2, [1], 2), [a.value]).Ok?
  {
    ThirdBaseOfMiddleNode();
    var p := GraphPath(DeletionGraph(), 2, [1], 2);
    assert ValidPath(p);
    MatchShape(2, 1, "TTGG");
    assert "TTGG"[2 .. 3] == "G";
  }

  /** The same mappings on the same nodes, but the path claims to begin
      at offset 2 of the left flank while the first mapping begins at 3. */
  lemma StartMismatchRejected()
    ensures var a := MakeMapping(3, "1M", "A", "AAAA");
      var b := MakeMapping(0, "4M", "TTGG", "TTGG");
      var c := MakeMapping(0, "4M", "TTTT", "TTTT");
      && a.Ok? && b.Ok? && c.Ok?
      && GM.MakeGraphMapping(ThroughPath(2, 3), [a.value, b.value, c.value]) == Err(StartOffsetMismatch)
  {
    LastBaseOfLeftFlank();
    WholeNode("TTGG");
    WholeNode("TTTT");
    StartRunsRejected();
  }

  lemma StartRunsRejected()
    ensures GM.MakeGraphMapping(ThroughPath(2, 3), [Mapping(3, [MatchOp("A")]), Mapping(0, [MatchOp("TTGG")]), Mapping(0, [MatchOp("TTTT")])])
         == Err(StartOffsetMismatch)
  {
    assert "AAAA"[3 .. 4] == "A" && "TTGG"[0 .. 4] == "TTGG" && "TTTT"[0 .. 4] == "TTTT";
    ThroughRuns(2, 3, 3, "A", "TTGG", "TTTT");
  }

  /** The path ends at offset 3 of the right flank, but the last mapping
      covers only its first three bases and so ends at offset 2. */
  lemma EndMismatchRejected()
    ensures var a := MakeMapping(2, "2M", "AA", "AAAA");
      var b := MakeMapping(0, "4M", "TTGG", "TTGG");
      var c := MakeMapping(0, "3M", "TTT", "TTTT");
      && a.Ok? && b.Ok? && c.Ok?
      && GM.MakeGraphMapping(ThroughPath(2, 3), [a.value, b.value, c.value]) == Err(EndOffsetMismatch)
  {
    LastTwoOfLeftFlank();
    WholeNode("TTGG");
    FirstThreeOfRightFlank();
    EndRunsRejected();
  }

  lemma EndRunsRejected()
    ensures GM.MakeGraphMapping(ThroughPath(2, 3), [Mapping(2, [MatchOp("AA")]), Mapping(0, [MatchOp("TTGG")]), Mapping(0, [MatchOp("TTT")])])
         == Err(EndOffsetMismatch)
  {
    assert "AAAA"[2 .. 4] == "AA" && "TTGG"[0 .. 4] == "TTGG" && "TTTT"[0 .. 3] == "TTT";
    ThroughRuns(2, 3, 2, "AA", "TTGG", "TTT");
  }
}
