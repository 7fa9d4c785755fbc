/** Reading a sequential file in pieces is reading the concatenation of its records. */
module SeqReads {
  import opened Bytes
  import opened SeqFile

  /** Does a read of `want` bytes get past what the buffer holds? */
  predicate Refills(s: File, want: nat) {
    s.count == 0 || s.count < want
  }

  /** The one case in which seq_read goes wrong: the record it needs does not fit
      into the buffer, which it doubles without forgetting the failed attempt. */
  predicate Regrows(s: File, r: seq<seq<Byte>>, want: nat) {
    Refills(s, want) && NextIndex(s) < |r| && |r[NextIndex(s)]| >= Grab(s).size
  }

  /** A read from s that returned `out` and left s' did what it should. */
  ghost predicate Correct(s: File, r: seq<seq<Byte>>, s': File, out: seq<Byte>) {
    out <= Drop(Concat(r), s.pos) && s'.pos == s.pos + |out| && Represents(s', r)
  }

  lemma DropMore(b: seq<Byte>, n: nat, k: nat)
    requires k <= |Drop(b, n)|
    ensures Drop(b, n)[k..] == Drop(b, n + k)
  {
    if n + k <= |b| { assert b[n..][k..] == b[n + k..]; }
  }

  /** Fill appends whole records. */
  lemma {:induction false} FillAppends(s: File, r: seq<seq<Byte>>, at: nat, want: nat)
    requires s.count <= |s.buf| && s.count < s.size && at < |r|
    ensures var (f, k) := Fill(s, r, at, want);
            && f.buf[..f.count] == s.buf[..s.count] + Concat(r[at + 1..k + 1])
            && f.size == s.size && f.pos == s.pos && f.from == s.from
    decreases |r| - at
  {
    var (f, k) := Fill(s, r, at, want);
    if s.count >= want || at + 1 == |r| {
      assert r[at + 1..k + 1] == [];
    } else {
      var s1 := Show(s, r[at + 1]);
      if s1.count == s1.size {
        assert r[at + 1..k + 1] == [];
        assert f.buf[..f.count] == s.buf[..s.count];
      } else {
        FillAppends(s1, r, at + 1, want);
        assert s1.buf[..s1.count] == s.buf[..s.count] + r[at + 1];
        assert r[at + 1..k + 1][1..] == r[at + 2..k + 1];
        Associate(s.buf[..s.count], r[at + 1], Concat(r[at + 2..k + 1]));
      }
    }
  }

  // ---------- sequences of bytes ----------

  /** Out of x + y come a and then h; the tail t stays behind. */
  lemma Shifted(a: seq<Byte>, h: seq<Byte>, t: seq<Byte>, x: seq<Byte>, y: seq<Byte>)
    requires a + h == x + y
    ensures a + (h + t) == x + (y + t)
  {
    Associate(a, h, t);
    Associate(x, y, t);
  }

  lemma Slices(b: seq<Byte>, i: nat, j: nat, k: nat)
    requires i <= j <= k <= |b|
    ensures b[i..j] + b[j..k] == b[i..k]
  {
  }

  lemma NoTail(h: seq<Byte>)
    ensures h + [] == h && [] + h == h
  {
  }

  // ---------- the steps of a read ----------

  /** What is flushed and what stays is what the buffer held. */
  lemma FlushHeld(s: File, want: nat)
    requires Valid(s)
    ensures var f := Flush(s, want);
            && Valid(f.0) && f.0.pos == s.pos && f.0.size == s.size && NextIndex(f.0) == NextIndex(s)
            && f.1 + Held(f.0) == Held(s) && |f.1| == Min(s.count, want) && f.0.count == s.count - |f.1|
            && (f.0.count > 0 ==> s.count > 0 && f.0.index == s.index)
  {
    if s.count > 0 {
      var n := Min(s.count, want);
      Slices(s.buf, s.from, s.from + n, s.from + s.count);
      NoTail(s.buf[s.from..s.from + n]);
    }
  }

  /** What is delivered and what stays is what was filled in. */
  lemma DeliverHeld(s: File, at: nat, want: nat)
    requires s.count <= |s.buf| && s.size > 0
    ensures var d := Deliver(s, at, want);
            && Valid(d.0) && d.0.pos == s.pos && d.0.size == s.size && NextIndex(d.0) == at + 1
            && d.1 + Held(d.0) == s.buf[..s.count] && |d.1| == Min(s.count, want)
            && (d.0.count > 0 ==> d.0.index == at)
  {
    var n := Min(s.count, want);
    Slices(s.buf, 0, n, s.count);
    NoTail(s.buf[..n]);
    assert s.buf[0..n] == s.buf[..n] && s.buf[0..s.count] == s.buf[..s.count];
  }

  /** A refill delivers or holds the first record's buffer and then whole records. */
  lemma RefillHeld(s: File, r: seq<seq<Byte>>, want: nat, junk: nat -> Byte) returns (at: nat)
    requires s.count == 0 && s.size > 0 && s.index < |r|
    ensures s.index <= at < |r|
    ensures var f, s1 := Refill(s, r, want, junk), FirstRecord(s, r[s.index], junk);
            && Valid(f.0) && f.0.pos == s.pos && NextIndex(f.0) == at + 1 && (f.0.count > 0 ==> f.0.index == at)
            && f.1 + Held(f.0) == s1.buf[..s1.count] + Concat(r[s.index + 1..at + 1])
  {
    var s1 := FirstRecord(s, r[s.index], junk);
    var f := Fill(s1, r, s.index, want);
    FillAppends(s1, r, s.index, want);
    DeliverHeld(f.0, f.1, want);
    at := f.1;
  }

  /** Refilling accounts for every byte, whatever FirstRecord left in the buffer. */
  lemma RefillAccounts(s: File, r: seq<seq<Byte>>, want: nat, junk: nat -> Byte)
    requires s.count == 0 && s.size > 0 && s.index < |r|
    ensures var f, s1 := Refill(s, r, want, junk), FirstRecord(s, r[s.index], junk);
            && Valid(f.0) && f.0.pos == s.pos && (f.0.count > 0 ==> f.0.index < |r|)
            && f.1 + Rest(f.0, r) == s1.buf[..s1.count] + Tail(r, s.index + 1)
  {
    hide Refill, FirstRecord, Concat, Held;
    var at := RefillHeld(s, r, want, junk);
    var f, s1 := Refill(s, r, want, junk), FirstRecord(s, r[s.index], junk);
    ConcatSplit(r, s.index + 1, at + 1);
    Shifted(f.1, Held(f.0), Tail(r, at + 1), s1.buf[..s1.count], Concat(r[s.index + 1..at + 1]));
  }

  lemma RestEmpty(s: File, r: seq<seq<Byte>>)
    requires s.count == 0
    ensures Valid(s) && Rest(s, r) == Tail(r, s.index)
  {
    NoTail(Tail(r, s.index));
  }

  /** A refill that needs no larger buffer continues the stream. */
  lemma RefillContinues(s: File, r: seq<seq<Byte>>, want: nat, junk: nat -> Byte)
    requires s.count == 0 && s.size > 0 && (s.index < |r| ==> |r[s.index]| < s.size)
    ensures var f := Refill(s, r, want, junk);
            Valid(f.0) && f.0.pos == s.pos && (f.0.count > 0 ==> f.0.index < |r|) && f.1 + Rest(f.0, r) == Rest(s, r)
  {
    RestEmpty(s, r);
    NoTail(Rest(s, r));
    if s.index < |r| {
      hide Rest, Held, Refill, FirstRecord;
      RefillAccounts(s, r, want, junk);
      ConcatFirst(r, s.index);
      FirstRecordFits(s, r[s.index], junk);
    }
  }

  lemma FirstRecordFits(s: File, rec: seq<Byte>, junk: nat -> Byte)
    requires s.count == 0 && |rec| < s.size
    ensures var s1 := FirstRecord(s, rec, junk); s1.count == |rec| && s1.buf[..s1.count] == rec && s1.size == s.size
  {
  }

  /** Doubling the buffer counts the failed attempts as data. */
  lemma RefillInvents(s: File, r: seq<seq<Byte>>, want: nat, junk: nat -> Byte)
    requires s.count == 0 && s.size > 0 && s.index < |r| && |r[s.index]| >= s.size
    ensures var f := Refill(s, r, want, junk);
            Valid(f.0) && f.0.pos == s.pos && |f.1| + |Rest(f.0, r)| > |Rest(s, r)|
  {
    RestEmpty(s, r);
    RefillAccounts(s, r, want, junk);
    ConcatFirst(r, s.index);
    FirstRecordTooLong(s, r[s.index], junk);
    var f, s1 := Refill(s, r, want, junk), FirstRecord(s, r[s.index], junk);
    assert |f.1 + Rest(f.0, r)| == |f.1| + |Rest(f.0, r)|;
  }

  lemma FirstRecordTooLong(s: File, rec: seq<Byte>, junk: nat -> Byte)
    requires s.count == 0 && s.size > 0 && |rec| >= s.size
    ensures FirstRecord(s, rec, junk).count > |rec|
  {
    var s1 := Show(s, rec);
    assert FirstRecord(s, rec, junk) == FirstRecord(s1.(buf := seq<Byte>(s1.count, junk), size := 2 * s1.size), rec, junk);
  }

  lemma RestIgnoresPos(s: File, r: seq<seq<Byte>>, p: nat)
    requires Valid(s)
    ensures Valid(s.(pos := p)) && Rest(s.(pos := p), r) == Rest(s, r)
  {
    assert Held(s.(pos := p)) == Held(s) && NextIndex(s.(pos := p)) == NextIndex(s);
  }

  /** Taking a prefix of the stream moves the position along it. */
  lemma PieceTaken(s: File, r: seq<seq<Byte>>, s': File, out: seq<Byte>)
    requires Represents(s, r) && Valid(s') && (s'.count > 0 ==> s'.index < |r|)
    requires s'.pos == s.pos + |out| && out + Rest(s', r) == Rest(s, r)
    ensures Correct(s, r, s', out)
  {
    var d := Drop(Concat(r), s.pos);
    assert (out + Rest(s', r))[|out|..] == Rest(s', r);
    DropMore(Concat(r), s.pos, |out|);
  }

  /** Two pieces in a row. */
  lemma TwoPieces(s: File, r: seq<seq<Byte>>, s1: File, a: seq<Byte>, s2: File, b: seq<Byte>)
    requires Represents(s, r) && Valid(s1) && Valid(s2) && (s2.count > 0 ==> s2.index < |r|)
    requires a + Rest(s1, r) == Rest(s, r) && b + Rest(s2, r) == Rest(s1, r)
    ensures Correct(s, r, s2.(pos := s.pos + |a + b|), a + b)
  {
    hide Rest, Drop;
    var s' := s2.(pos := s.pos + |a + b|);
    Associate(a, b, Rest(s2, r));
    RestIgnoresPos(s2, r, s.pos + |a + b|);
    PieceTaken(s, r, s', a + b);
  }

  lemma FlushContinues(s: File, r: seq<seq<Byte>>, want: nat)
    requires Valid(s)
    ensures Valid(Grab(s)) && var f := Flush(Grab(s), want); Valid(f.0) && f.1 + Rest(f.0, r) == Rest(s, r)
  {
    hide Tail;
    FlushHeld(Grab(s), want);
    var f := Flush(Grab(s), want);
    assert Held(Grab(s)) == Held(s);
    Associate(f.1, Held(f.0), Tail(r, NextIndex(s)));
  }

  /** seq_read as a flush to s1, and a refill to s2 if more is wanted. */
  lemma ReadInHalves(s: File, r: seq<seq<Byte>>, want: nat, junk: nat -> Byte)
    returns (s1: File, a: seq<Byte>, s2: File, b: seq<Byte>)
    requires Valid(s) && (s.count > 0 ==> s.index < |r|)
    ensures Valid(s1) && s1.size == Grab(s).size > 0 && |a| == Min(s.count, want)
    ensures (s1.count > 0 ==> s1.index < |r|) && a + Rest(s1, r) == Rest(s, r)
    ensures Refills(s, want) ==> s1.count == 0 && s1.index == NextIndex(s) && (s2, b) == Refill(s1, r, want - |a|, junk)
    ensures !Refills(s, want) ==> s2 == s1 && b == []
    ensures Read(s, r, want, junk) == (s2.(pos := s.pos + |a + b|), a + b)
  {
    hide Rest, Refill, Held;
    var s0 := Grab(s);
    FlushContinues(s, r, want);
    FlushHeld(s0, want);
    var f := Flush(s0, want);
    s1, a := f.0, f.1;
    if Refills(s, want) {
      var g := Refill(s1, r, want - |a|, junk);
      s2, b := g.0, g.1;
    } else {
      s2, b := s1, [];
    }
  }

  lemma ReadContinues(s: File, r: seq<seq<Byte>>, want: nat, junk: nat -> Byte)
    requires Represents(s, r) && !Regrows(s, r, want)
    ensures Correct(s, r, Read(s, r, want, junk).0, Read(s, r, want, junk).1)
  {
    hide Rest, Read, Refill, Drop;
    var s1, a, s2, b := ReadInHalves(s, r, want, junk);
    if Refills(s, want) { RefillContinues(s1, r, want - |a|, junk); } else { NoTail(Rest(s1, r)); }
    TwoPieces(s, r, s1, a, s2, b);
  }

  lemma TooMuch(s: File, r: seq<seq<Byte>>, s': File, out: seq<Byte>)
    requires Represents(s, r) && Valid(s') && s'.pos == s.pos + |out| && |out| + |Rest(s', r)| > |Rest(s, r)|
    ensures !Correct(s, r, s', out)
  {
    hide Rest;
    if out <= Drop(Concat(r), s.pos) {
      DropMore(Concat(r), s.pos, |out|);
    }
  }

  lemma ReadInvents(s: File, r: seq<seq<Byte>>, want: nat, junk: nat -> Byte)
    requires Represents(s, r) && Regrows(s, r, want)
    ensures !Correct(s, r, Read(s, r, want, junk).0, Read(s, r, want, junk).1)
  {
    hide Rest, Read, Refill, Drop;
    var s1, a, s2, b := ReadInHalves(s, r, want, junk);
    RefillInvents(s1, r, want - |a|, junk);
    RestIgnoresPos(s2, r, s.pos + |a + b|);
    assert |a + Rest(s1, r)| == |Rest(s, r)|;
    TooMuch(s, r, s2.(pos := s.pos + |a + b|), a + b);
  }

  lemma ReadAtMost(s: File, r: seq<seq<Byte>>, want: nat, junk: nat -> Byte)
    requires Valid(s)
    ensures |Read(s, r, want, junk).1| <= want
  {
    hide Fill, FirstRecord;
  }

  /** seq_read returns the next piece of the concatenated records and stands
      behind it, if and only if it did not have to enlarge its buffer. */
  lemma ReadCorrectIff(s: File, r: seq<seq<Byte>>, want: nat, junk: nat -> Byte)
    requires Represents(s, r)
    ensures Correct(s, r, Read(s, r, want, junk).0, Read(s, r, want, junk).1) <==> !Regrows(s, r, want)
    ensures |Read(s, r, want, junk).1| <= want
  {
    ReadAtMost(s, r, want, junk);
    if Regrows(s, r, want) { ReadInvents(s, r, want, junk); } else { ReadContinues(s, r, want, junk); }
  }

  lemma {:induction false} FillStops(s: File, r: seq<seq<Byte>>, at: nat, want: nat)
    requires s.count <= |s.buf| && s.count < s.size && at < |r|
    ensures var (t, k) := Fill(s, r, at, want);
            t.count >= want || k + 1 == |r| || t.count + |r[k + 1]| >= t.size
    decreases |r| - at
  {
    if s.count < want && at + 1 < |r| {
      var s1 := Show(s, r[at + 1]);
      if s1.count < s1.size { FillStops(s1, r, at + 1, want); }
    }
  }

  lemma RefillStops(s: File, r: seq<seq<Byte>>, want: nat, junk: nat -> Byte)
    requires s.count == 0 && s.size > 0
    ensures var (t, out) := Refill(s, r, want, junk);
            |out| < want ==> t.count == 0 && (t.index >= |r| || |out| + |r[t.index]| >= t.size)
  {
    if s.index < |r| {
      var s1 := FirstRecord(s, r[s.index], junk);
      FillStops(s1, r, s.index, want);
    }
  }

  /** A read that returns less than was asked for has emptied the buffer, and has come to the end or
      to a record that does not fit into the buffer behind what it had put there. */
  lemma ShortReadMeans(s: File, r: seq<seq<Byte>>, want: nat, junk: nat -> Byte)
    requires Represents(s, r)
    ensures var (t, out) := Read(s, r, want, junk);
            |out| < want ==> t.count == 0 && |out| >= s.count &&
                             (t.index >= |r| || |out| - s.count + |r[t.index]| >= t.size)
  {
    hide Rest, Read, Refill;
    var s1, a, s2, b := ReadInHalves(s, r, want, junk);
    if Refills(s, want) { RefillStops(s1, r, want - |a|, junk); }
  }

  /** Reading a single record as long as the buffer goes wrong. */
  lemma PageLongRecord(want: nat, junk: nat -> Byte)
    ensures var r := [seq<Byte>(PAGE_SIZE, _ => 7)];
            !Correct(Opened, r, Read(Opened, r, want, junk).0, Read(Opened, r, want, junk).1)
  {
    var r := [seq<Byte>(PAGE_SIZE, _ => 7)];
    assert r[0..] == r;
    ReadInvents(Opened, r, want, junk);
  }

  // ---------- progress ----------

  /** The first non-empty record from `at` on does not fit into `size` bytes. */
  predicate Stuck(r: seq<seq<Byte>>, at: nat, size: nat)
    decreases |r| - at
  {
    at < |r| && if r[at] == [] then Stuck(r, at + 1, size) else |r[at]| >= size
  }

  /** Filling an empty buffer stays empty only at the end or before a record that is too long. */
  lemma {:induction false} FillEmpty(s: File, r: seq<seq<Byte>>, at: nat, want: nat)
    requires s.count == 0 && s.size > 0 && at < |r| && want > 0
    ensures Fill(s, r, at, want).0.count == 0 <==> Concat(r[at + 1..]) == [] || Stuck(r, at + 1, s.size)
    decreases |r| - at
  {
    if at + 1 < |r| {
      ConcatFirst(r, at + 1);
      var s1 := Show(s, r[at + 1]);
      if r[at + 1] == [] {
        FillEmpty(s1, r, at + 1, want);
      } else if s1.count < s1.size {
        FillAppends(s1, r, at + 1, want);
        assert |Fill(s1, r, at + 1, want).0.buf[..Fill(s1, r, at + 1, want).0.count]| >= |r[at + 1]|;
      }
    }
  }

  /** A read of a positive size that does not regrow returns nothing exactly at
      the end of the stream, or behind empty records before one that is too long. */
  lemma NothingReadIff(s: File, r: seq<seq<Byte>>, want: nat, junk: nat -> Byte)
    requires Represents(s, r) && want > 0 && !Regrows(s, r, want)
    ensures Read(s, r, want, junk).1 == [] <==> Rest(s, r) == [] || (s.count == 0 && Stuck(r, s.index, Grab(s).size))
  {
    var s1, a, s2, b := ReadInHalves(s, r, want, junk);
    if s.count == 0 {
      RefillNothing(s1, r, want, junk);
      assert a == [] && a + b == b;
    }
  }

  lemma RefillNothing(s: File, r: seq<seq<Byte>>, want: nat, junk: nat -> Byte)
    requires s.count == 0 && s.size > 0 && want > 0 && (s.index < |r| ==> |r[s.index]| < s.size)
    ensures Refill(s, r, want, junk).1 == [] <==> Rest(s, r) == [] || Stuck(r, s.index, s.size)
  {
    RestEmpty(s, r);
    if s.index < |r| {
      FirstRecordFits(s, r[s.index], junk);
      hide Held, Rest, FirstRecord;
      var s1 := FirstRecord(s, r[s.index], junk);
      var f := Fill(s1, r, s.index, want);
      ConcatFirst(r, s.index);
      DeliverHeld(f.0, f.1, want);
      if r[s.index] == [] {
        FillEmpty(s1, r, s.index, want);
      } else {
        FillAppends(s1, r, s.index, want);
        assert |f.0.buf[..f.0.count]| >= |r[s.index]|;
      }
    }
  }
}
