/** Small shared vocabulary: bytes, optional values, results for the source's panics. */
module Common {

  /** One byte of UTF-8 text. */
  newtype byte = b: int | 0 <= b < 256

  datatype Option<+T> = None | Some(value: T)

  /** The source aborts (panics) on malformed input; here that is an `Err`. */
  datatype Result<+T, +E> = Ok(value: T) | Err(error: E)

  /** Concatenation of a sequence of pieces, built from the left as a loop appending piece after piece. */
  function Concat<T>(pieces: seq<seq<T>>): (r: seq<T>)
  {
    if pieces == [] then [] else Concat(pieces[..|pieces| - 1]) + pieces[|pieces| - 1]
  }

  /** A prefix one element longer is the shorter prefix with that element appended. */
  lemma TakeSnoc<T>(s: seq<T>, i: nat)
    requires i < |s|
    ensures s[..i + 1] == s[..i] + [s[i]]
  {
  }

  /** A non-empty sequence is its front with its last element appended. */
  lemma FrontLast<T>(s: seq<T>)
    requires s != []
    ensures s == s[..|s| - 1] + [s[|s| - 1]]
  {
  }

  /** Appending one element keeps the sequence as the prefix and the element as the last item. */
  lemma SnocParts<T>(s: seq<T>, x: T)
    ensures (s + [x])[..|s|] == s && (s + [x])[|s|] == x
  {
  }

  /** Appending a non-empty sequence is appending its front, then its last element. */
  lemma AppendSnoc<T>(s: seq<T>, g: seq<T>)
    requires g != []
    ensures s + g == (s + g[..|g| - 1]) + [g[|g| - 1]]
  {
    FrontLast(g);
  }

  lemma ConcatSnoc<T>(pieces: seq<seq<T>>, p: seq<T>)
    ensures Concat(pieces + [p]) == Concat(pieces) + p
  {
    assert (pieces + [p])[..|pieces|] == pieces;
  }

  lemma {:induction false} ConcatAppend<T>(a: seq<seq<T>>, b: seq<seq<T>>)
    ensures Concat(a + b) == Concat(a) + Concat(b)
  {
    if b == [] {
      assert a + b == a;
    } else {
      var b' := b[..|b| - 1];
      assert a + b == (a + b') + [b[|b| - 1]];
      ConcatSnoc(a + b', b[|b| - 1]);
      ConcatAppend(a, b');
      ConcatSnoc(b', b[|b| - 1]);
      assert b == b' + [b[|b| - 1]];
    }
  }
}
