/** Bytes and sequences of byte strings. */
module Bytes {
  type Byte = bv8

  /** All the strings of r, one after the other. */
  function Concat(r: seq<seq<Byte>>): seq<Byte> {
    if r == [] then [] else r[0] + Concat(r[1..])
  }

  lemma Associate(a: seq<Byte>, b: seq<Byte>, c: seq<Byte>)
    ensures a + (b + c) == (a + b) + c
  {
  }

  lemma ConcatMore(x: seq<Byte>, r: seq<seq<Byte>>)
    ensures Concat([x] + r) == x + Concat(r)
  {
    assert ([x] + r)[1..] == r;
  }

  lemma {:induction false} ConcatJoin(a: seq<seq<Byte>>, b: seq<seq<Byte>>)
    ensures Concat(a + b) == Concat(a) + Concat(b)
  {
    if a == [] {
      assert a + b == b && Concat(a) == [] && [] + Concat(b) == Concat(b);
    } else {
      ConcatJoin(a[1..], b);
      assert a + b == [a[0]] + (a[1..] + b);
      ConcatMore(a[0], a[1..] + b);
      Associate(a[0], Concat(a[1..]), Concat(b));
    }
  }

  lemma ConcatOne(x: seq<Byte>)
    ensures Concat([x]) == x
  {
    assert Concat([x]) == x + Concat([]);
  }

  lemma ConcatFirst(r: seq<seq<Byte>>, i: nat)
    requires i < |r|
    ensures Concat(r[i..]) == r[i] + Concat(r[i+1..])
  {
    assert r[i..][1..] == r[i+1..];
  }

  lemma ConcatLast(r: seq<seq<Byte>>, i: nat, j: nat)
    requires i <= j < |r|
    ensures Concat(r[i..j+1]) == Concat(r[i..j]) + r[j]
  {
    assert r[i..j+1] == r[i..j] + [r[j]];
    ConcatJoin(r[i..j], [r[j]]);
    ConcatOne(r[j]);
  }

  lemma ConcatSplit(r: seq<seq<Byte>>, i: nat, j: nat)
    requires i <= j <= |r|
    ensures Concat(r[i..]) == Concat(r[i..j]) + Concat(r[j..])
  {
    assert r[i..] == r[i..j] + r[j..];
    ConcatJoin(r[i..j], r[j..]);
  }
}
