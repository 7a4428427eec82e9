/** The alignment of one contiguous piece of a read against one node: a
    reference start in the node's own coordinates and a run-length list of
    operations (M match or mismatch, I insertion, D deletion, S soft clip),
    each carrying the bases it aligns. */
module Mappings {
  import opened Results
  import opened Decimal

  datatype OpKind = Match | Insertion | Deletion | SoftClip

  function OpChar(k: OpKind): char {
    match k
    case Match => 'M'
    case Insertion => 'I'
    case Deletion => 'D'
    case SoftClip => 'S'
  }

  /** The operation kind an operation letter stands for. */
  function KindOfChar(c: char): (r: Option<OpKind>)
    ensures r.Some? ==> OpChar(r.value) == c
    ensures r.None? ==> forall k :: OpChar(k) != c
  {
    if c == 'M' then Some(Match)
    else if c == 'I' then Some(Insertion)
    else if c == 'D' then Some(Deletion)
    else if c == 'S' then Some(SoftClip)
    else None
  }

  predicate ConsumesQuery(k: OpKind) {
    k != Deletion
  }

  predicate ConsumesReference(k: OpKind) {
    k == Match || k == Deletion
  }

  /** One token of a cigar string: a length and a kind. */
  datatype OpSpec = OpSpec(length: nat, kind: OpKind)

  function QueryStep(op: OpSpec): nat {
    if ConsumesQuery(op.kind) then op.length else 0
  }

  function ReferenceStep(op: OpSpec): nat {
    if ConsumesReference(op.kind) then op.length else 0
  }

  /** Read bases consumed by the operations. */
  function QueryLength(ops: seq<OpSpec>): nat {
    if ops == [] then 0 else QueryStep(ops[0]) + QueryLength(ops[1..])
  }

  /** Node bases consumed by the operations. */
  function ReferenceLength(ops: seq<OpSpec>): nat {
    if ops == [] then 0 else ReferenceStep(ops[0]) + ReferenceLength(ops[1..])
  }

  /** Total length of the operations of kind k. */
  function KindTotal(ops: seq<OpSpec>, k: OpKind): nat {
    if ops == [] then 0 else (if ops[0].kind == k then ops[0].length else 0) + KindTotal(ops[1..], k)
  }

  /** The query span is the matched, inserted and clipped bases; the
      reference span is the matched and deleted bases. */
  lemma {:induction false} SpanDecomposition(ops: seq<OpSpec>)
    ensures QueryLength(ops) == KindTotal(ops, Match) + KindTotal(ops, Insertion) + KindTotal(ops, SoftClip)
    ensures ReferenceLength(ops) == KindTotal(ops, Match) + KindTotal(ops, Deletion)
  {
    if ops != [] {
      SpanDecomposition(ops[1..]);
    }
  }

  // ---------------------------------------------------------------------------
  // Cigar text: (Length OpChar)+

  /** Writes each length in decimal followed by its operation letter. The text
      never holds a bracket, so it can sit between the brackets of a segment. */
  function EncodeCigar(ops: seq<OpSpec>): (r: string)
    ensures ']' !in r && '[' !in r
    ensures ops != [] ==> |r| > 1
  {
    if ops == [] then ""
    else
      var d := NatToString(ops[0].length);
      assert forall i :: 0 <= i < |d| ==> IsDigit(d[i]);
      d + [OpChar(ops[0].kind)] + EncodeCigar(ops[1..])
  }

  /** A cigar with at least one operation, every one of positive length. */
  predicate WellFormedCigar(ops: seq<OpSpec>) {
    |ops| > 0 && forall i :: 0 <= i < |ops| ==> ops[i].length > 0
  }

  /** Parses a whole cigar string. What it accepts is exactly what
      EncodeCigar writes for a well-formed operation list. */
  function ParseCigar(s: string): (r: Result<seq<OpSpec>>)
    ensures r.Ok? ==> WellFormedCigar(r.value) && EncodeCigar(r.value) == s
    ensures r.Err? ==> r.error == MalformedEncoding
    decreases |s|
  {
    match ParseNumeral(s)
    case None => Err(MalformedEncoding)
    case Some((n, rest)) =>
      if n == 0 || rest == [] || KindOfChar(rest[0]).None? then Err(MalformedEncoding)
      else
        var op := OpSpec(n, KindOfChar(rest[0]).value);
        assert s == NatToString(n) + [OpChar(op.kind)] + rest[1..];
        if |rest| == 1 then Ok([op])
        else
          match ParseCigar(rest[1..])
          case Err(e) => Err(e)
          case Ok(ops) =>
            assert ([op] + ops)[1..] == ops;
            Ok([op] + ops)
  }

  /** Parsing a cigar that starts with one operation of positive length. */
  lemma ParseFirstOperation(n: nat, k: OpKind, rest: string)
    requires n > 0
    ensures rest == [] ==> ParseCigar(NatToString(n) + [OpChar(k)] + rest) == Ok([OpSpec(n, k)])
    ensures rest != [] && ParseCigar(rest).Ok? ==>
      ParseCigar(NatToString(n) + [OpChar(k)] + rest) == Ok([OpSpec(n, k)] + ParseCigar(rest).value)
  {
    var tail := [OpChar(k)] + rest;
    assert NatToString(n) + [OpChar(k)] + rest == NatToString(n) + tail;
    ParseNumeralOfNatToString(n, tail);
    assert KindOfChar(OpChar(k)) == Some(k);
    assert tail[1..] == rest;
  }

  lemma {:induction false} CigarRoundTrip(ops: seq<OpSpec>)
    requires WellFormedCigar(ops)
    ensures ParseCigar(EncodeCigar(ops)) == Ok(ops)
  {
    var op := ops[0];
    var rest := EncodeCigar(ops[1..]);
    assert EncodeCigar(ops) == NatToString(op.length) + [OpChar(op.kind)] + rest;
    ParseFirstOperation(op.length, op.kind, rest);
    if |ops| > 1 {
      assert WellFormedCigar(ops[1..]) by {
        forall i | 0 <= i < |ops[1..]| ensures ops[1..][i].length > 0 {
          assert ops[1..][i] == ops[i + 1];
        }
      }
      CigarRoundTrip(ops[1..]);
      assert [op] + ops[1..] == ops;
    } else {
      assert ops == [op];
    }
  }

  // ---------------------------------------------------------------------------
  // Operations with their bases, and mappings

  /** An operation with the read bases (empty for a deletion) and node
      bases (empty for an insertion or a soft clip) it aligns. */
  datatype Operation = Operation(kind: OpKind, length: nat, query: string, reference: string)

  datatype Mapping = Mapping(referenceStart: nat, operations: seq<Operation>)

  function Specs(ops: seq<Operation>): (r: seq<OpSpec>)
    ensures |r| == |ops|
  {
    if ops == [] then [] else [OpSpec(ops[0].length, ops[0].kind)] + Specs(ops[1..])
  }

  predicate WellFormedOperation(op: Operation) {
    && op.length > 0
    && |op.query| == (if ConsumesQuery(op.kind) then op.length else 0)
    && |op.reference| == (if ConsumesReference(op.kind) then op.length else 0)
  }

  predicate WellFormedOperations(ops: seq<Operation>) {
    forall i :: 0 <= i < |ops| ==> WellFormedOperation(ops[i])
  }

  predicate WellFormed(m: Mapping) {
    |m.operations| > 0 && WellFormedOperations(m.operations)
  }

  /** Every read base the operations hold, soft clips included. */
  function QueryPieces(ops: seq<Operation>): string {
    if ops == [] then "" else ops[0].query + QueryPieces(ops[1..])
  }

  /** The read bases the operations align, soft clips left out. */
  function AlignedQueryPieces(ops: seq<Operation>): string {
    if ops == [] then ""
    else (if ops[0].kind == SoftClip then "" else ops[0].query) + AlignedQueryPieces(ops[1..])
  }

  function ReferencePieces(ops: seq<Operation>): string {
    if ops == [] then "" else ops[0].reference + ReferencePieces(ops[1..])
  }

  /** The bases aligned by M operations; they count on both axes, so they
      bound both spans. */
  function NumMatches(m: Mapping): (r: nat)
    ensures r <= ReferenceSpan(m) && r <= QuerySpan(m)
  {
    KindTotal(Specs(m.operations), Match)
  }

  /** The read bases the operations consume: matched, inserted and clipped. */
  function QuerySpan(m: Mapping): (r: nat)
    ensures r == KindTotal(Specs(m.operations), Match) + KindTotal(Specs(m.operations), Insertion)
               + KindTotal(Specs(m.operations), SoftClip)
  {
    SpanDecomposition(Specs(m.operations));
    QueryLength(Specs(m.operations))
  }

  /** The node bases the operations consume: matched and deleted. */
  function ReferenceSpan(m: Mapping): (r: nat)
    ensures r == KindTotal(Specs(m.operations), Match) + KindTotal(Specs(m.operations), Deletion)
  {
    SpanDecomposition(Specs(m.operations));
    ReferenceLength(Specs(m.operations))
  }

  /** The aligned read bases: the query span without the soft-clipped bases. */
  function Query(m: Mapping): (r: string)
    ensures WellFormed(m) ==> |r| == QuerySpan(m) - KindTotal(Specs(m.operations), SoftClip)
  {
    assert WellFormed(m) ==> |AlignedQueryPieces(m.operations)| == QuerySpan(m) - KindTotal(Specs(m.operations), SoftClip) by {
      if WellFormed(m) { PieceLengths(m.operations); }
    }
    AlignedQueryPieces(m.operations)
  }

  /** The node bases the operations align, as many as the reference span. */
  function Reference(m: Mapping): (r: string)
    ensures WellFormed(m) ==> |r| == ReferenceSpan(m)
  {
    assert WellFormed(m) ==> |ReferencePieces(m.operations)| == ReferenceSpan(m) by {
      if WellFormed(m) { PieceLengths(m.operations); }
    }
    ReferencePieces(m.operations)
  }

  /** The piece of the read the mapping was built from, as many bases as
      the query span. */
  function ReadSlice(m: Mapping): (r: string)
    ensures WellFormed(m) ==> |r| == QuerySpan(m)
  {
    assert WellFormed(m) ==> |QueryPieces(m.operations)| == QuerySpan(m) by {
      if WellFormed(m) { PieceLengths(m.operations); }
    }
    QueryPieces(m.operations)
  }

  function Cigar(m: Mapping): string {
    EncodeCigar(Specs(m.operations))
  }

  /** The mapping's node bases are those of `node` from its reference start on. */
  predicate Anchored(m: Mapping, node: string) {
    && m.referenceStart + ReferenceSpan(m) <= |node|
    && Reference(m) == node[m.referenceStart .. m.referenceStart + ReferenceSpan(m)]
  }

  /** Cuts the read piece and the node, from the mapping's start on, into
      the bases of each operation. */
  function Slice(ops: seq<OpSpec>, query: string, node: string): (r: seq<Operation>)
    requires QueryLength(ops) <= |query|
    requires ReferenceLength(ops) <= |node|
    ensures Specs(r) == ops
    ensures QueryPieces(r) == query[..QueryLength(ops)]
    ensures ReferencePieces(r) == node[..ReferenceLength(ops)]
  {
    if ops == [] then []
    else
      var op := ops[0];
      var q := QueryStep(op);
      var n := ReferenceStep(op);
      var rest := Slice(ops[1..], query[q..], node[n..]);
      assert query[..QueryLength(ops)] == query[..q] + query[q..][..QueryLength(ops[1..])];
      assert node[..ReferenceLength(ops)] == node[..n] + node[n..][..ReferenceLength(ops[1..])];
      [Operation(op.kind, op.length, query[..q], node[..n])] + rest
  }

  /** Operations cut from a cigar with positive lengths are well formed. */
  lemma {:induction false} SliceWellFormed(ops: seq<OpSpec>, query: string, node: string)
    requires QueryLength(ops) <= |query|
    requires ReferenceLength(ops) <= |node|
    requires forall i :: 0 <= i < |ops| ==> ops[i].length > 0
    ensures WellFormedOperations(Slice(ops, query, node))
  {
    if ops != [] {
      var op := ops[0];
      var q := QueryStep(op);
      var n := ReferenceStep(op);
      var head := Operation(op.kind, op.length, query[..q], node[..n]);
      var rest := Slice(ops[1..], query[q..], node[n..]);
      assert Slice(ops, query, node) == [head] + rest;
      assert forall i :: 0 <= i < |ops[1..]| ==> ops[1..][i].length > 0 by {
        forall i | 0 <= i < |ops[1..]| ensures ops[1..][i] == ops[i + 1] { }
      }
      SliceWellFormed(ops[1..], query[q..], node[n..]);
      assert WellFormedOperation(head) by { assert op.length > 0; }
      WellFormedCons(head, rest);
    }
  }

  lemma WellFormedCons(op: Operation, rest: seq<Operation>)
    requires WellFormedOperation(op) && WellFormedOperations(rest)
    ensures WellFormedOperations([op] + rest)
  {
    forall i | 0 <= i < |[op] + rest| ensures WellFormedOperation(([op] + rest)[i]) {
      if i > 0 { assert ([op] + rest)[i] == rest[i - 1]; }
    }
  }

  /** Builds a mapping from its reference start, its cigar text, the read
      piece it aligns and the sequence of the node it is anchored on. It is
      refused when the cigar does not parse, when the cigar consumes a different
      number of read bases than the piece holds, or when it runs outside the node. */
  function MakeMapping(referenceStart: int, cigar: string, query: string, node: string): (r: Result<Mapping>)
    ensures r.Ok? <==>
      && ParseCigar(cigar).Ok?
      && QueryLength(ParseCigar(cigar).value) == |query|
      && 0 <= referenceStart
      && referenceStart + ReferenceLength(ParseCigar(cigar).value) <= |node|
    ensures r.Ok? ==>
      && r.value.referenceStart == referenceStart
      && Cigar(r.value) == cigar
      && ReadSlice(r.value) == query
      && WellFormed(r.value)
      && Anchored(r.value, node)
    ensures r.Err? ==> IsParseError(r.error)
  {
    match ParseCigar(cigar)
    case Err(e) => Err(e)
    case Ok(ops) =>
      if QueryLength(ops) != |query| then Err(QueryLengthMismatch)
      else if referenceStart < 0 || referenceStart + ReferenceLength(ops) > |node| then Err(ReferenceOutOfNode)
      else
        assert query[..QueryLength(ops)] == query;
        SliceWellFormed(ops, query, node[referenceStart..]);
        Ok(Mapping(referenceStart, Slice(ops, query, node[referenceStart..])))
  }

  // ---------------------------------------------------------------------------
  // Properties

  lemma {:induction false} PieceLengths(ops: seq<Operation>)
    requires WellFormedOperations(ops)
    ensures |QueryPieces(ops)| == QueryLength(Specs(ops))
    ensures |AlignedQueryPieces(ops)| == QueryLength(Specs(ops)) - KindTotal(Specs(ops), SoftClip)
    ensures |ReferencePieces(ops)| == ReferenceLength(Specs(ops))
  {
    if ops != [] {
      assert Specs(ops)[1..] == Specs(ops[1..]);
      assert WellFormedOperations(ops[1..]) by {
        forall i | 0 <= i < |ops[1..]| ensures WellFormedOperation(ops[1..][i]) {
          assert ops[1..][i] == ops[i + 1];
        }
      }
      assert WellFormedOperation(ops[0]);
      PieceLengths(ops[1..]);
      SpanDecomposition(Specs(ops[1..]));
    }
  }

  /** Without soft clips the aligned query is the whole read piece. */
  lemma {:induction false} UnclippedQuery(ops: seq<Operation>)
    requires WellFormedOperations(ops)
    requires KindTotal(Specs(ops), SoftClip) == 0
    ensures AlignedQueryPieces(ops) == QueryPieces(ops)
  {
    if ops != [] {
      assert Specs(ops)[1..] == Specs(ops[1..]);
      assert WellFormedOperation(ops[0]);
      assert WellFormedOperations(ops[1..]) by {
        forall i | 0 <= i < |ops[1..]| ensures WellFormedOperation(ops[1..][i]) {
          assert ops[1..][i] == ops[i + 1];
        }
      }
      UnclippedQuery(ops[1..]);
    }
  }

  lemma WellFormedTail(ops: seq<Operation>)
    requires ops != [] && WellFormedOperations(ops)
    ensures WellFormedOperation(ops[0]) && WellFormedOperations(ops[1..])
  {
    forall i | 0 <= i < |ops[1..]| ensures WellFormedOperation(ops[1..][i]) {
      assert ops[1..][i] == ops[i + 1];
    }
  }

  /** One step of Slice over the pieces of a well-formed operation. */
  lemma SliceStep(op: Operation, rest: seq<Operation>, node: string)
    requires WellFormedOperation(op)
    requires |op.reference| <= |node| && op.reference == node[..|op.reference|]
    requires QueryLength(Specs(rest)) == |QueryPieces(rest)|
    requires |op.reference| + ReferenceLength(Specs(rest)) <= |node|
    ensures QueryLength(Specs([op] + rest)) == |QueryPieces([op] + rest)|
    ensures ReferenceLength(Specs([op] + rest)) <= |node|
    ensures Slice(Specs([op] + rest), QueryPieces([op] + rest), node)
         == [op] + Slice(Specs(rest), QueryPieces(rest), node[|op.reference|..])
  {
    var ops := [op] + rest;
    assert ops[0] == op && ops[1..] == rest;
    var spec := OpSpec(op.length, op.kind);
    var specs := Specs(ops);
    assert specs[0] == spec && specs[1..] == Specs(rest);
    var q := QueryStep(spec);
    var query := QueryPieces(ops);
    assert query == op.query + QueryPieces(rest);
    assert query[..q] == op.query;
    assert query[q..] == QueryPieces(rest);
  }

  /** Cutting the pieces of well-formed operations out again gives them back. */
  lemma {:induction false} SliceOfPieces(ops: seq<Operation>, node: string)
    requires WellFormedOperations(ops)
    requires |ReferencePieces(ops)| <= |node|
    requires ReferencePieces(ops) == node[..|ReferencePieces(ops)|]
    ensures QueryLength(Specs(ops)) == |QueryPieces(ops)|
    ensures ReferenceLength(Specs(ops)) == |ReferencePieces(ops)|
    ensures Slice(Specs(ops), QueryPieces(ops), node) == ops
  {
    PieceLengths(ops);
    if ops != [] {
      var op := ops[0];
      var rest := ops[1..];
      WellFormedTail(ops);
      PieceLengths(rest);
      var r := ReferencePieces(rest);
      var k := |op.reference|;
      assert ReferencePieces(ops) == op.reference + r;
      PrefixParts(op.reference, r, node);
      SliceOfPieces(rest, node[k..]);
      assert [op] + rest == ops;
      SliceStep(op, rest, node);
    }
  }

  /** Two pieces that together start a node each cover their part of it. */
  lemma PrefixParts(a: string, b: string, node: string)
    requires |a + b| <= |node| && a + b == node[..|a + b|]
    ensures a == node[..|a|] && b == node[|a|..][..|b|]
  {
    assert (a + b)[..|a|] == a;
    assert (a + b)[|a|..] == b;
  }

  /** Rebuilding a well-formed anchored mapping from its start, its cigar
      text and its read piece gives the same mapping back. */
  lemma MappingRoundTrip(m: Mapping, node: string)
    requires WellFormed(m) && Anchored(m, node)
    ensures ParseCigar(Cigar(m)) == Ok(Specs(m.operations))
    ensures MakeMapping(m.referenceStart, Cigar(m), ReadSlice(m), node) == Ok(m)
  {
    var ops := Specs(m.operations);
    assert WellFormedCigar(ops) by {
      forall i | 0 <= i < |ops| ensures ops[i].length > 0 {
        SpecsAt(m.operations, i);
      }
    }
    CigarRoundTrip(ops);
    PieceLengths(m.operations);
    SliceOfPieces(m.operations, node[m.referenceStart..]);
  }

  lemma {:induction false} SpecsAt(ops: seq<Operation>, i: nat)
    requires i < |ops|
    ensures Specs(ops)[i] == OpSpec(ops[i].length, ops[i].kind)
  {
    if i > 0 {
      SpecsAt(ops[1..], i - 1);
    }
  }

  /** A mapping depends on the node only through the bases it aligns: two
      nodes that agree there give equal mappings. */
  lemma MappingIgnoresUnalignedBases(referenceStart: int, cigar: string, query: string, node: string, other: string)
    requires MakeMapping(referenceStart, cigar, query, node).Ok?
    requires var m := MakeMapping(referenceStart, cigar, query, node).value;
      && referenceStart + ReferenceSpan(m) <= |other|
      && other[referenceStart .. referenceStart + ReferenceSpan(m)] == node[referenceStart .. referenceStart + ReferenceSpan(m)]
    ensures MakeMapping(referenceStart, cigar, query, other) == MakeMapping(referenceStart, cigar, query, node)
  {
    var m := MakeMapping(referenceStart, cigar, query, node).value;
    MappingRoundTrip(m, other);
  }
}
