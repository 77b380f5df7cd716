/** The pieces a template literal concatenates. The literal's loop visits the
    cooked chunks in order; at the i-th chunk it keeps the chunk's text when
    that is non-empty and then, while expressions remain, the value of the
    i-th expression. */
module Template {
  import opened Json

  /** The text of a chunk, if it is truthy (non-empty). */
  function Chunk(cooked: string): seq<Json> {
    if cooked != "" then [JStr(cooked)] else []
  }

  /** The test on a chunk is JavaScript truthiness: the chunk is kept exactly
      when its text is truthy. */
  lemma ChunkTruthy(cooked: string)
    ensures Chunk(cooked) == (if Truthy(JStr(cooked)) then [JStr(cooked)] else [])
    ensures |Chunk(cooked)| <= 1
  {
  }

  /** The pieces after visiting the first `n` chunks, for chunks `quasis` and
      expression values `values`; value `i` follows chunk `i`. */
  function PiecesUpTo(quasis: seq<string>, values: seq<Json>, n: nat): seq<Json>
    requires n <= |quasis| && |values| <= |quasis|
  {
    if n == 0 then []
    else
      var k := n - 1;
      PiecesUpTo(quasis, values, k) + Chunk(quasis[k]) + (if k < |values| then [values[k]] else [])
  }

  /** The pieces after visiting every chunk. */
  function Pieces(quasis: seq<string>, values: seq<Json>): seq<Json>
    requires |values| <= |quasis|
  {
    PiecesUpTo(quasis, values, |quasis|)
  }

  /** A single piece stands for itself; any other number is concatenated. */
  function Collapse(pieces: seq<Json>): Json {
    if |pieces| == 1 then pieces[0] else Op("cat", pieces)
  }

  predicate AllNonEmpty(quasis: seq<string>) {
    forall i :: 0 <= i < |quasis| ==> quasis[i] != ""
  }

  predicate AllEmpty(quasis: seq<string>) {
    forall i :: 0 <= i < |quasis| ==> quasis[i] == ""
  }

  /** A value not yet visited does not change the pieces so far. */
  lemma {:induction false} PiecesUpToExtend(quasis: seq<string>, values: seq<Json>, value: Json, n: nat)
    requires n <= |values| < |quasis|
    ensures PiecesUpTo(quasis, values + [value], n) == PiecesUpTo(quasis, values, n)
  {
    if n > 0 {
      PiecesUpToExtend(quasis, values, value, n - 1);
      assert (values + [value])[n - 1] == values[n - 1];
    }
  }

  lemma {:induction false} PiecesUpToBounds(quasis: seq<string>, values: seq<Json>, n: nat)
    requires n <= |quasis| && |values| <= |quasis|
    ensures var m := if n < |values| then n else |values|;
      m <= |PiecesUpTo(quasis, values, n)| <= n + m
  {
    if n > 0 {
      PiecesUpToBounds(quasis, values, n - 1);
    }
  }

  /** There are at least as many pieces as values, and at most as many as
      chunks and values together; `PiecesValuePositions` says where each
      value is. */
  lemma PiecesBounds(quasis: seq<string>, values: seq<Json>)
    requires |values| <= |quasis|
    ensures |values| <= |Pieces(quasis, values)| <= |quasis| + |values|
  {
    PiecesUpToBounds(quasis, values, |quasis|);
  }

  /** The number of non-empty chunks among the first `n`. */
  function TextCount(quasis: seq<string>, n: nat): nat
    requires n <= |quasis|
  {
    if n == 0 then 0 else TextCount(quasis, n - 1) + |Chunk(quasis[n - 1])|
  }

  lemma {:induction false} PiecesUpToLength(quasis: seq<string>, values: seq<Json>, n: nat)
    requires n <= |quasis| && |values| <= |quasis|
    ensures |PiecesUpTo(quasis, values, n)| == TextCount(quasis, n) + (if n < |values| then n else |values|)
  {
    if n > 0 {
      PiecesUpToLength(quasis, values, n - 1);
    }
  }

  /** The pieces after `n` chunks are a prefix of the pieces after `m >= n`. */
  lemma {:induction false} PiecesUpToPrefix(quasis: seq<string>, values: seq<Json>, n: nat, m: nat)
    requires n <= m <= |quasis| && |values| <= |quasis|
    ensures PiecesUpTo(quasis, values, n) <= PiecesUpTo(quasis, values, m)
  {
    if n < m {
      PiecesUpToPrefix(quasis, values, n, m - 1);
      var k := m - 1;
      assert PiecesUpTo(quasis, values, m)
          == PiecesUpTo(quasis, values, k) + (Chunk(quasis[k]) + (if k < |values| then [values[k]] else []));
    }
  }

  lemma PiecesValueAt(quasis: seq<string>, values: seq<Json>, i: nat)
    requires i < |values| <= |quasis|
    ensures i + TextCount(quasis, i + 1) < |Pieces(quasis, values)|
    ensures Pieces(quasis, values)[i + TextCount(quasis, i + 1)] == values[i]
  {
    PiecesUpToPrefix(quasis, values, i + 1, |quasis|);
    PiecesUpToLength(quasis, values, i + 1);
    var upTo := PiecesUpTo(quasis, values, i + 1);
    assert upTo == PiecesUpTo(quasis, values, i) + Chunk(quasis[i]) + [values[i]];
    assert upTo[|upTo| - 1] == values[i];
  }

  /** Where the text of chunk `i` goes, if it is non-empty. */
  function TextPosition(quasis: seq<string>, values: seq<Json>, i: nat): nat
    requires i <= |quasis|
  {
    TextCount(quasis, i) + (if i < |values| then i else |values|)
  }

  lemma PiecesTextAt(quasis: seq<string>, values: seq<Json>, i: nat)
    requires i < |quasis| && |values| <= |quasis| && quasis[i] != ""
    ensures TextPosition(quasis, values, i) < |Pieces(quasis, values)|
    ensures Pieces(quasis, values)[TextPosition(quasis, values, i)] == JStr(quasis[i])
  {
    PiecesUpToPrefix(quasis, values, i + 1, |quasis|);
    PiecesUpToLength(quasis, values, i);
    var before := PiecesUpTo(quasis, values, i);
    var upTo := PiecesUpTo(quasis, values, i + 1);
    assert upTo == before + [JStr(quasis[i])] + (if i < |values| then [values[i]] else []);
    assert upTo[|before|] == JStr(quasis[i]);
  }

  /** One piece per non-empty chunk and one per value. */
  lemma PiecesLength(quasis: seq<string>, values: seq<Json>)
    requires |values| <= |quasis|
    ensures |Pieces(quasis, values)| == TextCount(quasis, |quasis|) + |values|
  {
    PiecesUpToLength(quasis, values, |quasis|);
  }

  /** Value `i` follows the text of the non-empty chunks up to and including
      chunk `i`, and the values before it. */
  lemma PiecesValuePositions(quasis: seq<string>, values: seq<Json>)
    requires |values| <= |quasis|
    ensures forall i {:trigger values[i]} :: 0 <= i < |values| ==>
      i + TextCount(quasis, i + 1) < |Pieces(quasis, values)|
      && Pieces(quasis, values)[i + TextCount(quasis, i + 1)] == values[i]
  {
    forall i: nat | i < |values| {
      PiecesValueAt(quasis, values, i);
    }
  }

  /** A non-empty chunk `i` follows the non-empty chunks and the values before
      it. */
  lemma PiecesTextPositions(quasis: seq<string>, values: seq<Json>)
    requires |values| <= |quasis|
    ensures forall i :: 0 <= i < |quasis| && quasis[i] != "" ==>
      TextPosition(quasis, values, i) < |Pieces(quasis, values)|
      && Pieces(quasis, values)[TextPosition(quasis, values, i)] == JStr(quasis[i])
  {
    forall i: nat | i < |quasis| && quasis[i] != "" {
      PiecesTextAt(quasis, values, i);
    }
  }

  lemma {:induction false} PiecesUpToPaired(quasis: seq<string>, values: seq<Json>, n: nat)
    requires n <= |values| <= |quasis|
    requires forall i :: 0 <= i < n ==> quasis[i] != ""
    ensures var r := PiecesUpTo(quasis, values, n);
      && |r| == 2 * n
      && forall i :: 0 <= i < n ==> r[2 * i] == JStr(quasis[i]) && r[2 * i + 1] == values[i]
  {
    if n > 0 {
      PiecesUpToPaired(quasis, values, n - 1);
    }
  }

  /** With one value per chunk and no empty chunk, pieces alternate: chunk,
      value, chunk, value, ... */
  lemma PiecesPaired(quasis: seq<string>, values: seq<Json>)
    requires |values| == |quasis| && AllNonEmpty(quasis)
    ensures var r := Pieces(quasis, values);
      && |r| == 2 * |values|
      && forall i :: 0 <= i < |values| ==> r[2 * i] == JStr(quasis[i]) && r[2 * i + 1] == values[i]
  {
    PiecesUpToPaired(quasis, values, |values|);
  }

  /** The shape a parsed template has, one more chunk than expressions and
      none empty: the pieces start and end with text and alternate between. */
  lemma PiecesAlternate(quasis: seq<string>, values: seq<Json>)
    requires |quasis| == |values| + 1 && AllNonEmpty(quasis)
    ensures var r := Pieces(quasis, values);
      && |r| == 2 * |values| + 1
      && (forall i :: 0 <= i < |values| ==> r[2 * i] == JStr(quasis[i]) && r[2 * i + 1] == values[i])
      && r[2 * |values|] == JStr(quasis[|values|])
  {
    PiecesUpToPaired(quasis, values, |values|);
  }

  lemma {:induction false} PiecesUpToWithoutText(quasis: seq<string>, values: seq<Json>, n: nat)
    requires n <= |quasis| && |values| <= |quasis| && AllEmpty(quasis)
    ensures var r := PiecesUpTo(quasis, values, n);
      && |r| == (if n < |values| then n else |values|)
      && forall i :: 0 <= i < |r| ==> r[i] == values[i]
  {
    if n > 0 {
      PiecesUpToWithoutText(quasis, values, n - 1);
      assert Chunk(quasis[n - 1]) == [];
    }
  }

  /** Without text, the pieces are exactly the expression values. */
  lemma PiecesWithoutText(quasis: seq<string>, values: seq<Json>)
    requires |values| <= |quasis| && AllEmpty(quasis)
    ensures Pieces(quasis, values) == values
  {
    PiecesUpToWithoutText(quasis, values, |quasis|);
  }

  lemma {:induction false} PiecesUpToWithoutValues(quasis: seq<string>, n: nat)
    requires n <= |quasis|
    ensures var r := PiecesUpTo(quasis, [], n);
      && |r| <= n
      && (forall i :: 0 <= i < |r| ==> r[i].JStr? && r[i].s != "")
      && ((forall i :: 0 <= i < n ==> quasis[i] != "") ==> r == seq(n, i requires 0 <= i < n => JStr(quasis[i])))
  {
    if n > 0 {
      PiecesUpToWithoutValues(quasis, n - 1);
    }
  }

  /** Without expressions, the pieces are the non-empty chunks. */
  lemma PiecesWithoutValues(quasis: seq<string>)
    ensures |Pieces(quasis, [])| <= |quasis|
    ensures forall i :: 0 <= i < |Pieces(quasis, [])| ==> Pieces(quasis, [])[i].JStr? && Pieces(quasis, [])[i].s != ""
    ensures AllNonEmpty(quasis) ==> Pieces(quasis, []) == seq(|quasis|, i requires 0 <= i < |quasis| => JStr(quasis[i]))
  {
    PiecesUpToWithoutValues(quasis, |quasis|);
  }
}
