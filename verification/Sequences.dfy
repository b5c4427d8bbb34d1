/** Sequences that are built by appending: their two ends, and putting pieces together. */
module Sequences {
  function Front<T>(s: seq<T>): seq<T>
    requires s != []
  {
    s[..|s| - 1]
  }

  function Last<T>(s: seq<T>): T
    requires s != []
  {
    s[|s| - 1]
  }

  /** The pieces one behind the other. */
  function Flatten<T>(pieces: seq<seq<T>>): seq<T> {
    if pieces == [] then [] else Flatten(Front(pieces)) + Last(pieces)
  }

  lemma {:induction false} FlattenPrepends<T>(piece: seq<T>, pieces: seq<seq<T>>)
    ensures Flatten([piece] + pieces) == piece + Flatten(pieces)
  {
    var all := [piece] + pieces;
    if pieces == [] {
      assert Front(all) == [] && Last(all) == piece;
    } else {
      assert Front(all) == [piece] + Front(pieces) && Last(all) == Last(pieces);
      FlattenPrepends(piece, Front(pieces));
      assert piece + Flatten(Front(pieces)) + Last(pieces) == piece + (Flatten(Front(pieces)) + Last(pieces));
    }
  }
}
