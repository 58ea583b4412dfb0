/** What several modules share: an optional value, two sizes fixed by the plugin, and a fact about sets. */
module Common {
  datatype Option<+T> = None | Some(value: T)

  /** The most participants a room ever holds and a mix ever sums. */
  const MAX_MIX := 110
  /** The buffer an identifier is stored in, its terminator included. */
  const UUID_LEN := 40

  lemma {:induction false} SubsetSize<T>(a: set<T>, b: set<T>)
    requires a <= b
    ensures |a| <= |b|
    decreases a
  {
    if a != {} {
      var x :| x in a;
      SubsetSize(a - {x}, b - {x});
    }
  }

  newtype Byte = b: int | 0 <= b < 256

  /** Copies a piece into an array. */
  method CopyAt<T>(out: array<T>, at: nat, piece: seq<T>)
    requires at + |piece| <= out.Length
    modifies out
    ensures out[..at + |piece|] == old(out[..at]) + piece
  {
    for i := 0 to |piece|
      invariant out[..at + i] == old(out[..at]) + piece[..i]
    {
      out[at + i] := piece[i];
    }
  }
}
