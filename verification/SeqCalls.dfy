/** seq_read, traverse and seq_lseek as they run. */
module SeqCalls {
  import opened Options
  import opened Bytes
  import F = SeqFile
  import R = SeqReads
  import opened SeqRuns

  class Sequential {
    var buf: seq<Byte>
    var size: nat
    var count: nat
    var from: nat
    var index: nat
    var pos: nat

    ghost function View(): F.File
      reads this
    {
      F.File(buf, size, count, from, index, pos)
    }

    /** seq_open. */
    constructor ()
      ensures View() == F.Opened
    {
      buf, size, count, from, index, pos := [], 0, 0, 0, 0, 0;
    }

    method Show(rec: seq<Byte>)
      requires count <= |buf| && count <= size
      modifies this
      ensures View() == F.Show(old(View()), rec)
    {
      if count + |rec| < size {
        buf, count := buf[..count] + rec, count + |rec|;
      } else {
        buf, count := buf[..count] + rec[..size - count], size;
      }
    }

    /** The first loop of seq_read: until one record is in the buffer. */
    method FirstRecord(rec: seq<Byte>, junk: nat -> Byte)
      requires count <= |buf| && count <= size && size > 0
      modifies this
      ensures View() == F.FirstRecord(old(View()), rec, junk)
    {
      ghost var goal := F.FirstRecord(View(), rec, junk);
      while true
        invariant count <= |buf| && count <= size && size > 0 && F.FirstRecord(View(), rec, junk) == goal
        decreases if |rec| >= size then |rec| - size + 1 else 0, if count + |rec| >= size then 1 else 0
      {
        Show(rec);
        if count < size { return; }
        buf, size := seq<Byte>(count, junk), 2 * size;
      }
    }

    /** The second loop of seq_read: more records while they fit and are wanted. */
    method Fill(r: seq<seq<Byte>>, first: nat, want: nat) returns (at: nat)
      requires count <= |buf| && count < size && first < |r|
      modifies this
      ensures (View(), at) == F.Fill(old(View()), r, first, want)
    {
      ghost var goal := F.Fill(View(), r, first, want);
      at := first;
      while count < want
        invariant count <= |buf| && count < size && at < |r| && F.Fill(View(), r, at, want) == goal
        decreases |r| - at
      {
        var offs := count;
        if at + 1 == |r| { break; }
        Show(r[at + 1]);
        if count == size {
          count := offs;
          break;
        }
        at := at + 1;
      }
    }

    /** What is still in the buffer goes out first. */
    method Flush(want: nat) returns (out: seq<Byte>)
      requires F.Valid(View())
      modifies this
      ensures (View(), out) == F.Flush(old(View()), want)
    {
      out := [];
      if count > 0 {
        var n := F.Min(count, want);
        out := buf[from..from + n];
        count, from := count - n, from + n;
        if count == 0 { index := index + 1; }
      }
    }

    method Refill(r: seq<seq<Byte>>, want: nat, junk: nat -> Byte) returns (out: seq<Byte>)
      requires count == 0 && size > 0
      modifies this
      ensures (View(), out) == F.Refill(old(View()), r, want, junk)
    {
      if index >= |r| { return []; }
      FirstRecord(r[index], junk);
      var at := Fill(r, index, want);
      var n := F.Min(count, want);
      out := buf[..n];
      count := count - n;
      if count > 0 { from := n; } else { at := at + 1; }
      index := at;
    }

    /** seq_read. */
    method Read(r: seq<seq<Byte>>, want: nat, junk: nat -> Byte) returns (out: seq<Byte>)
      requires F.Represents(View(), r)
      modifies this
      ensures (View(), out) == F.Read(old(View()), r, want, junk)
      ensures R.Correct(old(View()), r, View(), out) <==> !R.Regrows(old(View()), r, want)
    {
      hide F.Rest, F.Refill, R.Correct;
      R.ReadCorrectIff(View(), r, want, junk);
      var at := pos;
      if size == 0 { buf, size := [], F.PAGE_SIZE; }
      var held := count;
      out := Flush(want);
      var more := [];
      if !(held > 0 && |out| == want) { more := Refill(r, want - |out|, junk); }
      out := out + more;
      pos := at + |out|;
    }

    /** One pass of traverse; false is -EAGAIN. */
    method Pass(r: seq<seq<Byte>>, off: nat) returns (ok: bool)
      requires count == 0 && size > 0 && off > 0
      modifies this
      ensures ok <==> TraverseFrom(old(View()), r, off, 0, 0).Some?
      ensures ok ==> View() == TraverseFrom(old(View()), r, off, 0, 0).value
      ensures pos == old(pos) && size == old(size)
    {
      ghost var goal := TraverseFrom(View(), r, off, 0, 0);
      var p, at := 0, 0;
      while at < |r|
        invariant count == 0 && at <= |r| && 0 <= p < off && TraverseFrom(View(), r, off, at, p) == goal
        invariant pos == old(pos) && size == old(size)
      {
        Show(r[at]);
        if count == size { return false; }
        if p + count > off {
          from := off - p;
          count, index := count - from, at;
          return true;
        }
        p, count := p + count, 0;
        if p == off {
          index := at + 1;
          return true;
        }
        at := at + 1;
      }
      index := at;
      ok := true;
    }

    /** seq_lseek. */
    method Lseek(r: seq<seq<Byte>>, off: int, origin: nat) returns (o: Option<nat>)
      requires F.Represents(View(), r)
      modifies this
      ensures o == Target(old(pos), off, origin) && View() == Seek(old(View()), r, off, origin)
      ensures F.Represents(View(), r)
      ensures var to := if origin == 0 then off else old(pos) + off;
              if origin <= 1 && to >= 0 then o == Some(to) && pos == to else o.None? && View() == old(View())
    {
      SeekLands(View(), r, off, origin);
      var to := off;
      if origin == 1 { to := to + pos; }
      if origin > 1 || to < 0 { return None; }
      o := Some(to);
      if to != pos {
        Traverse(r, to);
        pos := to;
      }
    }

    /** traverse, tried again with a larger buffer as long as a record overflows. */
    method Traverse(r: seq<seq<Byte>>, off: nat)
      modifies this
      ensures View() == SeqRuns.Traverse(old(View()), r, off)
    {
      index, count, from := 0, 0, 0;
      if off == 0 { return; }
      if size == 0 { buf, size := [], F.PAGE_SIZE; }
      ghost var goal := Retry(View(), r, off);
      ghost var s := View();
      while true
        invariant View() == s && s.index == s.from == s.count == 0 && s.size > 0 && Retry(s, r, off) == goal
        decreases if s.size <= Longest(r) then Longest(r) - s.size + 1 else 0
      {
        var ok := Pass(r, off);
        if ok { return; }
        OverflowIsLong(s, r, off, 0, 0);
        index, count, from := 0, 0, 0;
        buf, size := [], 2 * size;
        s := s.(buf := [], size := 2 * s.size);
      }
    }
  }
}
