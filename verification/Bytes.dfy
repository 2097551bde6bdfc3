/** Bytes, byte strings and the concatenation of lists of byte strings. */
module Bytes {

  type byte = b: int | 0 <= b < 256

  type Bytestring = seq<byte>

  type u16 = x: int | 0 <= x < 65536

  /** Concatenation of all the parts, in order. */
  function Flatten<T>(parts: seq<seq<T>>): seq<T>
  {
    if parts == [] then [] else parts[0] + Flatten(parts[1..])
  }

  lemma {:induction false} FlattenConcat<T>(a: seq<seq<T>>, b: seq<seq<T>>)
    ensures Flatten(a + b) == Flatten(a) + Flatten(b)
  {
    if a == [] {
      assert a + b == b;
    } else {
      assert (a + b)[1..] == a[1..] + b;
      FlattenConcat(a[1..], b);
    }
  }

  lemma FlattenSnoc<T>(a: seq<seq<T>>, x: seq<T>)
    ensures Flatten(a + [x]) == Flatten(a) + x
  {
    FlattenConcat(a, [x]);
    assert Flatten([x]) == x + Flatten<T>([]);
  }

  lemma Assoc<T>(a: seq<T>, b: seq<T>, c: seq<T>)
    ensures (a + b) + c == a + (b + c)
  {
  }

  lemma NoneRight<T>(a: seq<T>)
    ensures a + [] == a
  {
  }
}
