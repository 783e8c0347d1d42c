/**
 Cutting a file into chunks (crates/fileferry-core/src/lib.rs,
 `ContentChunker::chunk_bytes`).  Where FastCDC cuts is foreign code; what
 the backup relies on is that the ranges are non-empty, follow one another
 and cover the input.
 */
module Chunking {
  import opened Repository
  import opened Backup

  datatype Range = Range(offset: nat, length: nat)

  function TotalOf(ranges: seq<Range>): nat {
    if ranges == [] then 0 else TotalOf(ranges[..|ranges| - 1]) + ranges[|ranges| - 1].length
  }

  /** Contiguous, non-empty ranges that cover `n` bytes. */
  predicate Covers(ranges: seq<Range>, n: nat) {
    && TotalOf(ranges) == n
    && forall k :: 0 <= k < |ranges| ==> ranges[k].length > 0 && ranges[k].offset == TotalOf(ranges[..k])
  }

  /** The pieces are the ranges of `data`. */
  predicate AreSlices(pieces: seq<Piece>, data: Data, ranges: seq<Range>) {
    |pieces| == |ranges|
    && forall k :: 0 <= k < |ranges| ==>
         && ranges[k].offset + ranges[k].length <= |data|
         && pieces[k].offset == ranges[k].offset
         && pieces[k].data == data[ranges[k].offset..ranges[k].offset + ranges[k].length]
  }

  function PieceBytes(pieces: seq<Piece>): nat {
    if pieces == [] then 0 else PieceBytes(pieces[..|pieces| - 1]) + |pieces[|pieces| - 1].data|
  }

  function Concat(pieces: seq<Piece>): Data {
    if pieces == [] then [] else Concat(pieces[..|pieces| - 1]) + pieces[|pieces| - 1].data
  }

  lemma JoinSlices(data: Data, a: nat, b: nat)
    requires a <= b <= |data|
    ensures data[..a] + data[a..b] == data[..b]
  {
  }

  lemma {:induction false} CoveringSlicesConcat(pieces: seq<Piece>, data: Data, ranges: seq<Range>)
    requires AreSlices(pieces, data, ranges)
    requires forall k :: 0 <= k < |ranges| ==> ranges[k].offset == TotalOf(ranges[..k])
    ensures TotalOf(ranges) <= |data|
    ensures Concat(pieces) == data[..TotalOf(ranges)] && PieceBytes(pieces) == TotalOf(ranges)
    decreases |pieces|
  {
    if pieces == [] {
      assert ranges == [];
    } else {
      hide Concat, PieceBytes, TotalOf, AreSlices;
      var n := |pieces| - 1;
      FrontSlices(pieces, data, ranges);
      CoveringSlicesConcat(pieces[..n], data, ranges[..n]);
      LastPiece(pieces);
      LastRange(ranges);
      var a, b := TotalOf(ranges[..n]), TotalOf(ranges);
      LastSlice(pieces, data, ranges, a, b);
      JoinSlices(data, a, b);
    }
  }

  lemma {:induction false} FrontSlices(pieces: seq<Piece>, data: Data, ranges: seq<Range>)
    requires AreSlices(pieces, data, ranges) && pieces != []
    requires forall k :: 0 <= k < |ranges| ==> ranges[k].offset == TotalOf(ranges[..k])
    ensures |ranges| == |pieces| && AreSlices(pieces[..|pieces| - 1], data, ranges[..|pieces| - 1])
    ensures var before := ranges[..|pieces| - 1];
            forall k :: 0 <= k < |before| ==> before[k].offset == TotalOf(before[..k])
    ensures ranges[|ranges| - 1].offset == TotalOf(ranges[..|ranges| - 1])
  {
    hide TotalOf;
    var before := ranges[..|pieces| - 1];
    forall k | 0 <= k < |before|
      ensures before[k].offset == TotalOf(before[..k])
    {
      assert before[..k] == ranges[..k] && before[k] == ranges[k];
    }
  }

  lemma {:induction false} LastPiece(pieces: seq<Piece>)
    requires pieces != []
    ensures var n := |pieces| - 1;
            Concat(pieces) == Concat(pieces[..n]) + pieces[n].data
            && PieceBytes(pieces) == PieceBytes(pieces[..n]) + |pieces[n].data|
  {
  }

  lemma {:induction false} LastRange(ranges: seq<Range>)
    requires ranges != []
    ensures TotalOf(ranges) == TotalOf(ranges[..|ranges| - 1]) + ranges[|ranges| - 1].length
  {
  }

  lemma {:induction false} LastSlice(pieces: seq<Piece>, data: Data, ranges: seq<Range>, a: nat, b: nat)
    requires AreSlices(pieces, data, ranges) && pieces != []
    requires ranges[|ranges| - 1].offset == a && a + ranges[|ranges| - 1].length == b
    ensures b <= |data| && pieces[|pieces| - 1].data == data[a..b]
  {
  }

  /** The chunks of a file, put together again, are the file. */
  lemma {:induction false} PiecesRebuildData(pieces: seq<Piece>, data: Data, ranges: seq<Range>)
    requires AreSlices(pieces, data, ranges) && Covers(ranges, |data|)
    ensures Concat(pieces) == data && PieceBytes(pieces) == |data|
  {
    CoveringSlicesConcat(pieces, data, ranges);
    assert data[..|data|] == data;
  }
}
