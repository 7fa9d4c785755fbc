/** The ring of a pipe: the copy loops of pipe_read and pipe_write. */
module PipeRing {
  import opened Bytes
  import opened Rings

  const PIPE_SIZE: nat := 4096
  const PIPE_BUF: nat := 4096

  function Min(a: nat, b: nat): nat { if a < b then a else b }

  lemma Grown(all: seq<Byte>, data: seq<Byte>, w: nat, n: nat)
    requires w + n <= |data|
    ensures (all + data[..w]) + data[w..w + n] == all + data[..w + n]
  {
  }

  class Ring {
    const base: array<Byte>
    var start: nat
    var len: nat

    ghost predicate Valid()
      reads this
    {
      base.Length == PIPE_SIZE && start < PIPE_SIZE && len <= PIPE_SIZE
    }

    ghost function Contents(): seq<Byte>
      requires Valid()
      reads this, base
    {
      Window(base[..], start, len)
    }

    constructor ()
      ensures Valid() && fresh(base) && Contents() == []
    {
      base := new Byte[PIPE_SIZE];
      start, len := 0, 0;
    }

    /** One contiguous piece out of the ring. */
    method TakeChunk(n: nat) returns (out: seq<Byte>)
      requires Valid() && n <= len && start + n <= PIPE_SIZE
      modifies this
      ensures Valid() && |out| == n && len == old(len) - n && old(Contents()) == out + Contents()
      ensures start == Wrap(old(start) + n, PIPE_SIZE)
    {
      WindowTake(base[..], start, len, n);
      out := base[start..start + n];
      start := Wrap(start + n, PIPE_SIZE);
      len := len - n;
      assert out == base[..][old(start)..old(start) + n];
    }

    /** The loop of pipe_read: what is wanted or all there is, around the end of
        the ring if need be. When the reader wants more, the pipe is empty. Only `reach` bytes
        of the caller's buffer can be written; a piece that goes beyond is not taken at all. */
    method Take(count: nat, reach: nat) returns (out: seq<Byte>, fault: bool)
      requires Valid()
      modifies this
      ensures Valid() && out + Contents() == old(Contents())
      ensures var all, first := Min(count, |old(Contents())|), Min(PIPE_SIZE - old(start), Min(count, old(len)));
              && (fault <==> reach < all)
              && |out| == if !fault then all else if first <= reach then first else 0
      ensures !fault && |out| < count ==> Contents() == []
    {
      hide Window;
      out, fault := [], false;
      ghost var all := Contents();
      ghost var first := Min(PIPE_SIZE - start, Min(count, len));
      var left := count;
      while left > 0 && len > 0
        invariant Valid() && 0 <= left == count - |out| && out + Contents() == all && |out| + len == |all| && !fault
        invariant |out| <= reach && (out == [] ==> start == old(start))
        invariant out == [] || |out| == Min(count, |all|) || (|out| == first && start == 0)
        decreases left
      {
        var chars := PIPE_SIZE - start;
        if chars > left { chars := left; }
        if chars > len { chars := len; }
        if |out| + chars > reach {
          fault := true;
          return;
        }
        var piece := TakeChunk(chars);
        assert (out + piece) + Contents() == out + (piece + Contents());
        out := out + piece;
        left := left - chars;
      }
      if len == 0 {
        assert Contents() == [];
        start := 0;
      }
    }

    /** One contiguous piece into the ring. */
    method PutChunk(data: seq<Byte>)
      requires Valid() && |data| <= PIPE_SIZE - len && Wrap(start + len, PIPE_SIZE) + |data| <= PIPE_SIZE
      modifies this`len, base
      ensures Valid() && len == old(len) + |data| && Contents() == old(Contents()) + data
    {
      WindowPut(base[..], start, len, data);
      var end := Wrap(start + len, PIPE_SIZE);
      var i := 0;
      while i < |data|
        invariant 0 <= i <= |data| && len == old(len)
        invariant base[..] == Write(old(base[..]), end, data[..i])
      {
        WriteOne(old(base[..]), end, data, i);
        ghost var before := base[..];
        base[end + i] := data[i];
        assert base[..] == before[end + i := data[i]];
        i := i + 1;
      }
      assert data[..i] == data;
      len := len + |data|;
    }

    /** The loop of pipe_write until the ring is full or everything is in. Only `reach` bytes
        of the caller's buffer can be read; a piece that goes beyond is not put in at all. */
    method Put(data: seq<Byte>, reach: nat) returns (written: nat, fault: bool)
      requires Valid()
      modifies this, base
      ensures Valid() && written <= |data| && Contents() == old(Contents()) + data[..written]
      ensures var all := Min(|data|, PIPE_SIZE - |old(Contents())|);
              var first := Min(PIPE_SIZE - Wrap(old(start) + old(len), PIPE_SIZE), all);
              && (fault <==> reach < all)
              && written == if !fault then all else if first <= reach then first else 0
    {
      hide Window;
      written, fault := 0, false;
      ghost var all := Contents();
      ghost var most := Min(|data|, PIPE_SIZE - len);
      ghost var first := Min(PIPE_SIZE - Wrap(start + len, PIPE_SIZE), most);
      assert data[..written] == [];
      while written < |data| && len < PIPE_SIZE
        invariant Valid() && written <= |data| && len == |all| + written && Contents() == all + data[..written] && !fault
        invariant start == old(start) && written <= reach && written <= most
        invariant written == 0 || written == most || (written == first && Wrap(start + len, PIPE_SIZE) == 0)
        decreases |data| - written
      {
        var chars := PIPE_SIZE - Wrap(start + len, PIPE_SIZE);
        if chars > |data| - written { chars := |data| - written; }
        if chars > PIPE_SIZE - len { chars := PIPE_SIZE - len; }
        if written + chars > reach {
          fault := true;
          return;
        }
        PutChunk(data[written..written + chars]);
        Grown(all, data, written, chars);
        written := written + chars;
      }
    }
  }

  /** The end of the ring lies between two bytes of a write, and only the first of them can be
      read: a short write is torn apart. */
  method TornWrite(ring: Ring, a: Byte, b: Byte) returns (written: nat, fault: bool)
    requires ring.Valid() && ring.start + ring.len == PIPE_SIZE - 1 && ring.start > 0
    modifies ring, ring.base
    ensures written == 1 && fault && ring.Valid() && ring.Contents() == old(ring.Contents()) + [a]
  {
    hide Window;
    written, fault := ring.Put([a, b], 1);
    assert [a, b][..1] == [a];
  }
}
