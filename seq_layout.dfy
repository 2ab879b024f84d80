/*
 * Sequences laid out one after another: where each piece starts and how a
 * piece of a concatenation is found again in a larger sequence.
 */
module SeqLayout {
  /** Pieces one after another. */
  function Concat<T>(pieces: seq<seq<T>>): seq<T>
    decreases |pieces|
  {
    if pieces == [] then [] else pieces[0] + Concat(pieces[1..])
  }
  /** Where each piece starts when the pieces are laid out from `pos`, and where the last ends. */
  function Offsets<T>(pos: nat, pieces: seq<seq<T>>): (r: seq<nat>)
    ensures |r| == |pieces| + 1
  {
    seq(|pieces| + 1, i requires 0 <= i <= |pieces| => pos + |Concat(pieces[..i])|)
  }

  lemma {:induction false} ConcatSnoc<T>(pieces: seq<seq<T>>, i: nat)
    requires i < |pieces|
    ensures Concat(pieces[..i + 1]) == Concat(pieces[..i]) + pieces[i]
    decreases i
  {
    if i > 0 {
      var p := pieces[1..];
      assert pieces[..i + 1][1..] == p[..i];
      assert pieces[..i][1..] == p[..i - 1];
      ConcatSnoc(p, i - 1);
    } else {
      assert pieces[..1][1..] == [];
    }
  }

  lemma {:induction false} ConcatSplit<T>(pieces: seq<seq<T>>, i: nat)
    requires i <= |pieces|
    ensures Concat(pieces) == Concat(pieces[..i]) + Concat(pieces[i..])
    decreases i
  {
    if i > 0 {
      ConcatSplit(pieces[1..], i - 1);
      assert pieces[..i][1..] == pieces[1..][..i - 1];
      assert pieces[1..][i - 1..] == pieces[i..];
    } else {
      assert pieces[..0] == [];
      assert pieces[0..] == pieces;
    }
  }

  lemma OffsetsEnd<T>(pos: nat, pieces: seq<seq<T>>)
    ensures Offsets(pos, pieces)[|pieces|] == pos + |Concat(pieces)|
  {
    assert pieces[..|pieces|] == pieces;
  }

  lemma OffsetsBounded<T>(pos: nat, pieces: seq<seq<T>>, i: nat)
    requires i <= |pieces|
    ensures Offsets(pos, pieces)[i] <= pos + |Concat(pieces)|
  {
    ConcatSplit(pieces, i);
  }

  lemma OffsetsStep<T>(pos: nat, pieces: seq<seq<T>>, i: nat)
    requires i < |pieces|
    ensures Offsets(pos, pieces)[i + 1] == Offsets(pos, pieces)[i] + |pieces[i]|
  {
    ConcatSnoc(pieces, i);
  }

  /** The two parts of a concatenation found in a text, found separately. */
  lemma SliceOfConcat<T>(text: seq<T>, pos: nat, a: seq<T>, b: seq<T>)
    requires pos + |a| + |b| <= |text| && text[pos..pos + |a| + |b|] == a + b
    ensures text[pos..pos + |a|] == a && text[pos + |a|..pos + |a| + |b|] == b
  {
    var w := text[pos..pos + |a| + |b|];
    assert text[pos..pos + |a|] == w[..|a|];
    assert text[pos + |a|..pos + |a| + |b|] == w[|a|..];
  }

  /** Piece `i` of a concatenation found in a text at `pos`, found in the text. */
  lemma PieceInText<T>(text: seq<T>, pos: nat, pieces: seq<seq<T>>, i: nat)
    requires i < |pieces|
    requires pos + |Concat(pieces)| <= |text| && text[pos..pos + |Concat(pieces)|] == Concat(pieces)
    ensures var o := Offsets(pos, pieces);
      o[i] + |pieces[i]| == o[i + 1] <= |text| && text[o[i]..o[i + 1]] == pieces[i]
  {
    OffsetsStep(pos, pieces, i);
    PieceAt(text, pos, Concat(pieces[..i]), pieces[i], Concat(pieces[i + 1..]), pieces, i);
  }

  lemma PieceAt<T>(text: seq<T>, pos: nat, a: seq<T>, p: seq<T>, b: seq<T>, pieces: seq<seq<T>>, i: nat)
    requires i < |pieces| && a == Concat(pieces[..i]) && p == pieces[i] && b == Concat(pieces[i + 1..])
    requires pos + |Concat(pieces)| <= |text| && text[pos..pos + |Concat(pieces)|] == Concat(pieces)
    ensures pos + |a| + |p| <= |text| && text[pos + |a|..pos + |a| + |p|] == p
  {
    ConcatSplit(pieces, i);
    assert Concat(pieces[i..]) == p + b;
    SliceOfConcat(text, pos, a, p + b);
    SliceOfConcat(text, pos + |a|, p, b);
  }
}
