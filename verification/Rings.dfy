/** Rings of bytes. */
module Rings {
  import opened Bytes

  /** x modulo the size n of a ring, for the sums that occur. */
  function Wrap(x: nat, n: nat): nat
    requires x < 2 * n
  {
    if x < n then x else x - n
  }

  /** The `len` bytes of a ring from `start` on. */
  function Window(mem: seq<Byte>, start: nat, len: nat): (s: seq<Byte>)
    requires start < |mem| && len <= |mem|
    ensures |s| == len
  {
    if start + len <= |mem| then mem[start..start + len] else mem[start..] + mem[..start + len - |mem|]
  }

  lemma WindowTake(mem: seq<Byte>, start: nat, len: nat, n: nat)
    requires start < |mem| && n <= len <= |mem| && start + n <= |mem|
    ensures Window(mem, start, len) == mem[start..start + n] + Window(mem, Wrap(start + n, |mem|), len - n)
  {
    if start + n == |mem| {
    } else if start + len <= |mem| {
    } else {
      assert mem[start..] == mem[start..start + n] + mem[start + n..];
    }
  }

  /** mem with `data` written at `end`. */
  function Write(mem: seq<Byte>, end: nat, data: seq<Byte>): seq<Byte>
    requires end + |data| <= |mem|
  {
    mem[..end] + data + mem[end + |data|..]
  }

  lemma WriteOne(mem: seq<Byte>, end: nat, data: seq<Byte>, i: nat)
    requires i < |data| && end + |data| <= |mem|
    ensures |Write(mem, end, data[..i])| == |mem|
    ensures Write(mem, end, data[..i])[end + i := data[i]] == Write(mem, end, data[..i + 1])
  {
    assert data[..i + 1] == data[..i] + [data[i]];
  }

  lemma WriteUpTo(mem: seq<Byte>, end: nat, data: seq<Byte>, a: nat)
    requires a <= end && end + |data| <= |mem|
    ensures |Write(mem, end, data)| == |mem| && Write(mem, end, data)[a..end + |data|] == mem[a..end] + data
  {
    var w := Write(mem, end, data);
    forall k | a <= k < end + |data| ensures w[k] == (mem[a..end] + data)[k - a] {}
  }

  lemma WriteBehind(mem: seq<Byte>, end: nat, data: seq<Byte>, a: nat)
    requires end + |data| <= a <= |mem|
    ensures |Write(mem, end, data)| == |mem| && Write(mem, end, data)[a..] == mem[a..]
  {
    var w := Write(mem, end, data);
    forall k | a <= k < |mem| ensures w[k] == mem[k] {}
  }

  lemma WindowPut(mem: seq<Byte>, start: nat, len: nat, data: seq<Byte>)
    requires start < |mem| && len + |data| <= |mem| && Wrap(start + len, |mem|) + |data| <= |mem|
    ensures |Write(mem, Wrap(start + len, |mem|), data)| == |mem|
    ensures Window(Write(mem, Wrap(start + len, |mem|), data), start, len + |data|) == Window(mem, start, len) + data
  {
    var end := Wrap(start + len, |mem|);
    if data == [] {
      assert Write(mem, end, data) == mem;
    } else if start + len < |mem| {
      WriteUpTo(mem, end, data, start);
    } else {
      WindowPutWrapped(mem, start, len, data);
    }
  }

  lemma WindowWraps(mem: seq<Byte>, start: nat, len: nat)
    requires start < |mem| && len <= |mem| <= start + len
    ensures Window(mem, start, len) == mem[start..] + mem[..start + len - |mem|]
  {
  }

  lemma WindowPutWrapped(mem: seq<Byte>, start: nat, len: nat, data: seq<Byte>)
    requires start < |mem| && len + |data| <= |mem| <= start + len && data != []
    ensures |Write(mem, start + len - |mem|, data)| == |mem|
    ensures Window(Write(mem, start + len - |mem|, data), start, len + |data|) == Window(mem, start, len) + data
  {
    hide Window, Write;
    var end := start + len - |mem|;
    var w := Write(mem, end, data);
    WriteUpTo(mem, end, data, 0);
    WriteBehind(mem, end, data, start);
    WindowWraps(w, start, len + |data|);
    WindowWraps(mem, start, len);
    assert w[..end + |data|] == mem[..end] + data by {
      assert w[..end + |data|] == w[0..end + |data|] && mem[..end] == mem[0..end];
    }
    Associate(mem[start..], mem[..end], data);
  }
}
