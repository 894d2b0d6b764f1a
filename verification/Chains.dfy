/** The bytes of a chain of buffers, end to end. */
module Chains {
  newtype Byte = b: int | 0 <= b < 256

  function Flat<T>(data: seq<seq<T>>): seq<T> {
    if data == [] then [] else data[0] + Flat(data[1..])
  }

  lemma {:induction false} FlatAppend<T>(a: seq<seq<T>>, b: seq<seq<T>>)
    ensures Flat(a + b) == Flat(a) + Flat(b)
  {
    if a == [] {
      assert a + b == b;
    } else {
      assert (a + b)[1..] == a[1..] + b;
      FlatAppend(a[1..], b);
    }
  }

  lemma FlatThree<T>(a: seq<seq<T>>, x: seq<T>, b: seq<seq<T>>)
    ensures Flat(a + [x]) == Flat(a) + x
    ensures Flat(a + [x] + b) == Flat(a) + x + Flat(b)
  {
    hide Flat;
    FlatOne(x);
    FlatAppend(a, [x]);
    FlatAppend(a + [x], b);
  }

  lemma FlatAt<T>(data: seq<seq<T>>, q: nat)
    requires q < |data|
    ensures Flat(data[..q + 1]) == Flat(data[..q]) + data[q]
    ensures Flat(data) == Flat(data[..q]) + data[q] + Flat(data[q + 1..])
  {
    hide Flat;
    FlatThree(data[..q], data[q], data[q + 1..]);
    Cut(data, q);
  }

  lemma Cut<T>(data: seq<T>, q: nat)
    requires q < |data|
    ensures data[..q + 1] == data[..q] + [data[q]]
    ensures data == data[..q] + [data[q]] + data[q + 1..]
  {
  }

  lemma FlatNone<T>(data: seq<seq<T>>)
    ensures Flat(data[..0]) == []
  {
  }

  lemma FlatOne<T>(one: seq<T>)
    ensures Flat([one]) == one
  {
  }

  lemma FlatCons<T>(one: seq<T>, rest: seq<seq<T>>)
    ensures Flat([one] + rest) == one + Flat(rest)
  {
  }
}
