/** A read-to-graph alignment: a path through the locus graph together with
    one node alignment (mapping) per path position. Construction checks that
    the two agree and returns no object when they do not. */
module GraphMappings {
  import opened Results
  import opened Graphs
  import opened Paths
  import M = Mappings

  datatype GraphMapping = GraphMapping(path: GraphPath, mappings: seq<M.Mapping>)

  // ---------------------------------------------------------------------------
  // Construction rules

  predicate CountsAgree(gm: GraphMapping) {
    |gm.mappings| == |gm.path.nodeIds|
  }

  /** Each mapping is well formed and its node bases are those of its node. */
  predicate MappingsAnchored(gm: GraphMapping)
    requires ValidPath(gm.path) && CountsAgree(gm)
  {
    forall i :: 0 <= i < |gm.mappings| ==>
      M.WellFormed(gm.mappings[i]) && M.Anchored(gm.mappings[i], NodeSeq(gm.path, i))
  }

  /** Every mapping strictly between the first and the last covers its whole node. */
  predicate InteriorsSpanNodes(gm: GraphMapping)
    requires ValidPath(gm.path) && CountsAgree(gm)
  {
    forall i :: 0 < i < |gm.mappings| - 1 ==> M.ReferenceSpan(gm.mappings[i]) == |NodeSeq(gm.path, i)|
  }

  /** The position of the last node base a mapping uses (inclusive). */
  function MappingEnd(m: M.Mapping): int {
    m.referenceStart + M.ReferenceSpan(m) - 1
  }

  /** The first mapping uses at least one base of its node, and its first
      node base is where the path starts. */
  predicate StartAgrees(gm: GraphMapping)
    requires |gm.mappings| > 0
  {
    M.ReferenceSpan(gm.mappings[0]) > 0 && gm.mappings[0].referenceStart == gm.path.startOffset
  }

  /** The last mapping uses at least one base of its node, and its last
      node base is where the path ends. */
  predicate EndAgrees(gm: GraphMapping)
    requires |gm.mappings| > 0
  {
    var last := gm.mappings[|gm.mappings| - 1];
    M.ReferenceSpan(last) > 0 && MappingEnd(last) == gm.path.endOffset
  }

  /** The invariant of every graph mapping. */
  predicate Consistent(gm: GraphMapping) {
    && ValidPath(gm.path)
    && CountsAgree(gm)
    && MappingsAnchored(gm)
    && InteriorsSpanNodes(gm)
    && StartAgrees(gm)
    && EndAgrees(gm)
  }

  /** Pairs a path with its mappings, failing with the first rule they break:
      each error tag names exactly the first rule, in the order of Consistent,
      that does not hold. */
  function MakeGraphMapping(path: GraphPath, mappings: seq<M.Mapping>): (r: Result<GraphMapping>)
    ensures r.Ok? <==> Consistent(GraphMapping(path, mappings))
    ensures r.Ok? ==> r.value == GraphMapping(path, mappings)
    ensures !ValidPath(path) ==> r == Err(MakePath(path.graph, path.startOffset, path.nodeIds, path.endOffset).error)
    ensures r == Err(MappingCountMismatch) <==> ValidPath(path) && |mappings| != |path.nodeIds|
    ensures r == Err(NodeSequenceMismatch) <==>
      var gm := GraphMapping(path, mappings);
      ValidPath(path) && CountsAgree(gm) && !MappingsAnchored(gm)
    ensures r == Err(InteriorSpanMismatch) <==>
      var gm := GraphMapping(path, mappings);
      ValidPath(path) && CountsAgree(gm) && MappingsAnchored(gm) && !InteriorsSpanNodes(gm)
    ensures r == Err(StartOffsetMismatch) <==>
      var gm := GraphMapping(path, mappings);
      ValidPath(path) && CountsAgree(gm) && MappingsAnchored(gm) && InteriorsSpanNodes(gm) && !StartAgrees(gm)
    ensures r == Err(EndOffsetMismatch) <==>
      var gm := GraphMapping(path, mappings);
      && ValidPath(path) && CountsAgree(gm) && MappingsAnchored(gm) && InteriorsSpanNodes(gm)
      && StartAgrees(gm) && !EndAgrees(gm)
  {
    var gm := GraphMapping(path, mappings);
    if !ValidPath(path) then Err(MakePath(path.graph, path.startOffset, path.nodeIds, path.endOffset).error)
    else if !CountsAgree(gm) then Err(MappingCountMismatch)
    else if !MappingsAnchored(gm) then Err(NodeSequenceMismatch)
    else if !InteriorsSpanNodes(gm) then Err(InteriorSpanMismatch)
    else if !StartAgrees(gm) then Err(StartOffsetMismatch)
    else if !EndAgrees(gm) then Err(EndOffsetMismatch)
    else Ok(gm)
  }

  // ---------------------------------------------------------------------------
  // Aggregate queries, folded over the mappings in path order

  function MatchesOf(ms: seq<M.Mapping>): nat {
    if ms == [] then 0 else M.NumMatches(ms[0]) + MatchesOf(ms[1..])
  }

  function QuerySpanOf(ms: seq<M.Mapping>): nat {
    if ms == [] then 0 else M.QuerySpan(ms[0]) + QuerySpanOf(ms[1..])
  }

  function ReferenceSpanOf(ms: seq<M.Mapping>): nat {
    if ms == [] then 0 else M.ReferenceSpan(ms[0]) + ReferenceSpanOf(ms[1..])
  }

  /** Total length of the operations of kind k over all mappings. */
  function KindTotalOf(ms: seq<M.Mapping>, k: M.OpKind): nat {
    if ms == [] then 0 else M.KindTotal(M.Specs(ms[0].operations), k) + KindTotalOf(ms[1..], k)
  }

  function QueryOf(ms: seq<M.Mapping>): string {
    if ms == [] then "" else M.Query(ms[0]) + QueryOf(ms[1..])
  }

  function ReferenceOf(ms: seq<M.Mapping>): string {
    if ms == [] then "" else M.Reference(ms[0]) + ReferenceOf(ms[1..])
  }

  function ReadOf(ms: seq<M.Mapping>): string {
    if ms == [] then "" else M.ReadSlice(ms[0]) + ReadOf(ms[1..])
  }

  predicate AllWellFormed(ms: seq<M.Mapping>) {
    forall i :: 0 <= i < |ms| ==> M.WellFormed(ms[i])
  }

  /** The bases aligned by M operations over the whole alignment; they
      bound both spans. */
  function NumMatches(gm: GraphMapping): (r: nat)
    ensures r <= ReferenceSpan(gm) && r <= QuerySpan(gm)
  {
    SpansOf(gm.mappings);
    MatchesOf(gm.mappings)
  }

  /** The read bases the alignment consumes: matched, inserted and clipped. */
  function QuerySpan(gm: GraphMapping): (r: nat)
    ensures r == KindTotalOf(gm.mappings, M.Match) + KindTotalOf(gm.mappings, M.Insertion)
               + KindTotalOf(gm.mappings, M.SoftClip)
  {
    SpansOf(gm.mappings);
    QuerySpanOf(gm.mappings)
  }

  /** The node bases the alignment consumes: matched and deleted. */
  function ReferenceSpan(gm: GraphMapping): (r: nat)
    ensures r == KindTotalOf(gm.mappings, M.Match) + KindTotalOf(gm.mappings, M.Deletion)
  {
    SpansOf(gm.mappings);
    ReferenceSpanOf(gm.mappings)
  }

  /** The aligned read bases, soft clips left out. */
  function Query(gm: GraphMapping): (r: string)
    ensures AllWellFormed(gm.mappings) ==> |r| == QuerySpan(gm) - KindTotalOf(gm.mappings, M.SoftClip)
  {
    assert AllWellFormed(gm.mappings) ==>
      |QueryOf(gm.mappings)| == QuerySpanOf(gm.mappings) - KindTotalOf(gm.mappings, M.SoftClip) by {
      if AllWellFormed(gm.mappings) { LengthsOf(gm.mappings); }
    }
    QueryOf(gm.mappings)
  }

  /** The node bases the alignment uses, as many as the reference span. */
  function Reference(gm: GraphMapping): (r: string)
    ensures AllWellFormed(gm.mappings) ==> |r| == ReferenceSpan(gm)
  {
    assert AllWellFormed(gm.mappings) ==> |ReferenceOf(gm.mappings)| == ReferenceSpanOf(gm.mappings) by {
      if AllWellFormed(gm.mappings) { LengthsOf(gm.mappings); }
    }
    ReferenceOf(gm.mappings)
  }

  /** Every read base the mappings hold, soft clips included, in path order;
      as many as the query span. */
  function Read(gm: GraphMapping): (r: string)
    ensures AllWellFormed(gm.mappings) ==> |r| == QuerySpan(gm)
  {
    assert AllWellFormed(gm.mappings) ==> |ReadOf(gm.mappings)| == QuerySpanOf(gm.mappings) by {
      if AllWellFormed(gm.mappings) { LengthsOf(gm.mappings); }
    }
    ReadOf(gm.mappings)
  }

  /** The mapping at path position i (not node id i). */
  function At(gm: GraphMapping, i: int): (r: Result<M.Mapping>)
    ensures r.Ok? <==> 0 <= i < |gm.mappings|
    ensures r.Ok? ==> r.value == gm.mappings[i]
    ensures r.Err? ==> r.error == IndexOutOfRange
  {
    if 0 <= i < |gm.mappings| then Ok(gm.mappings[i]) else Err(IndexOutOfRange)
  }

  /** The positions, in increasing order, at which the node ids equal n. */
  function IndexesOf(ids: seq<nat>, n: int): (r: seq<nat>)
    ensures forall k :: 0 <= k < |r| ==> r[k] < |ids| && ids[r[k]] == n
    ensures forall j :: 0 <= j < |ids| && ids[j] == n ==> j in r
    ensures forall k, l :: 0 <= k < l < |r| ==> r[k] < r[l]
  {
    if ids == [] then []
    else
      var last := |ids| - 1;
      var front := IndexesOf(ids[..last], n);
      assert forall k :: 0 <= k < |front| ==> ids[front[k]] == ids[..last][front[k]];
      front + (if ids[last] == n then [last] else [])
  }

  /** A node id that never occurs has no positions. */
  lemma UnvisitedNode(ids: seq<nat>, n: int)
    requires n !in ids
    ensures IndexesOf(ids, n) == []
  {
  }

  /** Every path position that visits node n; empty for a node the path
      never visits, including an id the graph does not have. */
  function GetIndexesOfNode(gm: GraphMapping, n: int): (r: seq<nat>)
    ensures forall k :: 0 <= k < |r| ==> r[k] < |gm.path.nodeIds| && gm.path.nodeIds[r[k]] == n
    ensures forall j :: 0 <= j < |gm.path.nodeIds| && gm.path.nodeIds[j] == n ==> j in r
    ensures forall k, l :: 0 <= k < l < |r| ==> r[k] < r[l]
  {
    IndexesOf(gm.path.nodeIds, n)
  }

  /** Whether the path visits node n at all. */
  function OverlapsNode(gm: GraphMapping, n: int): (r: bool)
    ensures r <==> |GetIndexesOfNode(gm, n)| > 0
  {
    var ids := gm.path.nodeIds;
    var found := exists j :: 0 <= j < |ids| && ids[j] == n;
    assert found ==> |GetIndexesOfNode(gm, n)| > 0 by {
      if found {
        var j :| 0 <= j < |ids| && ids[j] == n;
        assert j in GetIndexesOfNode(gm, n);
      }
    }
    assert |GetIndexesOfNode(gm, n)| > 0 ==> found by {
      if |GetIndexesOfNode(gm, n)| > 0 {
        var j := GetIndexesOfNode(gm, n)[0];
        assert 0 <= j < |ids| && ids[j] == n;
      }
    }
    found
  }

  // ---------------------------------------------------------------------------
  // Properties

  /** Summed over the mappings, the matches bound both spans, and each span
      is the sum of the lengths of the operation kinds that consume it. */
  lemma {:induction false} SpansOf(ms: seq<M.Mapping>)
    ensures MatchesOf(ms) <= ReferenceSpanOf(ms) && MatchesOf(ms) <= QuerySpanOf(ms)
    ensures QuerySpanOf(ms) == KindTotalOf(ms, M.Match) + KindTotalOf(ms, M.Insertion) + KindTotalOf(ms, M.SoftClip)
    ensures ReferenceSpanOf(ms) == KindTotalOf(ms, M.Match) + KindTotalOf(ms, M.Deletion)
  {
    if ms != [] {
      SpansOf(ms[1..]);
    }
  }

  /** For well-formed mappings the read bases are as many as the query span,
      the aligned read bases are the query span less the soft clips, and the
      node bases are as many as the reference span. */
  lemma {:induction false} LengthsOf(ms: seq<M.Mapping>)
    requires AllWellFormed(ms)
    ensures |ReadOf(ms)| == QuerySpanOf(ms)
    ensures |QueryOf(ms)| == QuerySpanOf(ms) - KindTotalOf(ms, M.SoftClip)
    ensures |ReferenceOf(ms)| == ReferenceSpanOf(ms)
  {
    if ms != [] {
      assert M.WellFormed(ms[0]);
      assert AllWellFormed(ms[1..]) by {
        forall i | 0 <= i < |ms[1..]| ensures ms[1..][i] == ms[i + 1] { }
      }
      LengthsOf(ms[1..]);
      SpansOf(ms[1..]);
    }
  }

  lemma {:induction false} UnclippedOf(ms: seq<M.Mapping>)
    requires AllWellFormed(ms)
    requires KindTotalOf(ms, M.SoftClip) == 0
    ensures QueryOf(ms) == ReadOf(ms)
  {
    if ms != [] {
      M.UnclippedQuery(ms[0].operations);
      assert AllWellFormed(ms[1..]) by {
        forall i | 0 <= i < |ms[1..]| ensures ms[1..][i] == ms[i + 1] { }
      }
      UnclippedOf(ms[1..]);
    }
  }

  /** Without soft clips the aligned query of a graph mapping is its whole read. */
  lemma UnclippedGraphQuery(gm: GraphMapping)
    requires Consistent(gm)
    requires KindTotalOf(gm.mappings, M.SoftClip) == 0
    ensures Query(gm) == Read(gm)
  {
    UnclippedOf(gm.mappings);
  }

  /** The path of a graph mapping starts at the first base its first mapping
      uses and ends at the last base its last mapping uses, so both offsets
      lie inside their nodes, and a single-node alignment does not end
      before it starts. */
  lemma OffsetsOfConsistent(gm: GraphMapping)
    requires Consistent(gm)
    ensures gm.path.startOffset == gm.mappings[0].referenceStart
    ensures 0 <= gm.path.startOffset < |NodeSeq(gm.path, 0)|
    ensures gm.path.endOffset == MappingEnd(gm.mappings[|gm.mappings| - 1])
    ensures 0 <= gm.path.endOffset < |NodeSeq(gm.path, |gm.mappings| - 1)|
    ensures |gm.mappings| == 1 ==> gm.path.startOffset <= gm.path.endOffset
  {
    var last := |gm.mappings| - 1;
    assert M.Anchored(gm.mappings[0], NodeSeq(gm.path, 0));
    assert M.Anchored(gm.mappings[last], NodeSeq(gm.path, last));
  }

  predicate Increasing(r: seq<nat>) {
    forall k, l :: 0 <= k < l < |r| ==> r[k] < r[l]
  }

  /** Two increasing lists holding the same positions are the same list. */
  lemma {:induction false} IncreasingBySet(a: seq<nat>, b: seq<nat>)
    requires Increasing(a) && Increasing(b)
    requires forall x :: x in a <==> x in b
    ensures a == b
    decreases |a|
  {
    assert a != [] ==> a[0] in b;
    assert b != [] ==> b[0] in a;
    if a != [] && b != [] {
      assert a[0] == b[0] by {
        assert a[0] in b && b[0] in a;
      }
      forall x ensures x in a[1..] <==> x in b[1..] {
        if x in a[1..] {
          assert x in b && x != b[0];
        }
        if x in b[1..] {
          assert x in a && x != a[0];
        }
      }
      IncreasingBySet(a[1..], b[1..]);
      assert a == [a[0]] + a[1..] && b == [b[0]] + b[1..];
    }
  }

  /** The visits of node n are determined by what the list promises: any
      increasing list of exactly the positions holding n is that list. */
  lemma IndexesOfUnique(ids: seq<nat>, n: int, r: seq<nat>)
    requires forall k :: 0 <= k < |r| ==> r[k] < |ids| && ids[r[k]] == n
    requires forall j :: 0 <= j < |ids| && ids[j] == n ==> j in r
    requires Increasing(r)
    ensures IndexesOf(ids, n) == r
  {
    var v := IndexesOf(ids, n);
    forall x ensures x in v <==> x in r {
      if x in r {
        var k :| 0 <= k < |r| && r[k] == x;
      }
    }
    IncreasingBySet(v, r);
  }
}
