/** Seeking in a sequential file, and any series of reads and seeks. */
module SeqRuns {
  import opened Options
  import opened Bytes
  import opened SeqFile
  import opened SeqReads

  // ---------- traverse and seq_lseek ----------

  /** traverse from record `at`, which begins at `pos`; None when a record overflows the buffer. */
  function TraverseFrom(s: File, r: seq<seq<Byte>>, off: nat, at: nat, pos: nat): Option<File>
    requires s.count == 0 && at <= |r| && pos <= off
    decreases |r| - at
  {
    if at == |r| then Some(s.(index := at))
    else
      var s1 := Show(s, r[at]);
      if s1.count == s1.size then None
      else if pos + s1.count > off then Some(s1.(from := off - pos, count := s1.count - (off - pos), index := at))
      else if pos + s1.count == off then Some(s1.(count := 0, index := at + 1))
      else TraverseFrom(s1.(count := 0), r, off, at + 1, pos + s1.count)
  }

  function Longest(r: seq<seq<Byte>>): nat {
    if r == [] then 0 else if |r[0]| > Longest(r[1..]) then |r[0]| else Longest(r[1..])
  }

  lemma {:induction false} LongestIs(r: seq<seq<Byte>>, i: nat)
    requires i < |r|
    ensures |r[i]| <= Longest(r)
  {
    if i > 0 { LongestIs(r[1..], i - 1); }
  }

  /** Only a record as long as the buffer overflows it. */
  lemma {:induction false} OverflowIsLong(s: File, r: seq<seq<Byte>>, off: nat, at: nat, pos: nat)
    requires s.count == 0 && at <= |r| && pos <= off && TraverseFrom(s, r, off, at, pos).None?
    ensures s.size <= Longest(r)
    decreases |r| - at
  {
    var s1 := Show(s, r[at]);
    if s1.count == s1.size { LongestIs(r, at); } else { OverflowIsLong(s1.(count := 0), r, off, at + 1, pos + s1.count); }
  }

  /** traverse, repeated with a doubled buffer while it says -EAGAIN. */
  function Retry(s: File, r: seq<seq<Byte>>, off: nat): File
    requires s.count == 0 && s.size > 0
    decreases if s.size <= Longest(r) then Longest(r) - s.size + 1 else 0
  {
    var t := TraverseFrom(s, r, off, 0, 0);
    if t.Some? then t.value
    else
      OverflowIsLong(s, r, off, 0, 0);
      Retry(s.(buf := [], size := 2 * s.size), r, off)
  }

  function Rewind(s: File): File {
    s.(index := 0, count := 0, from := 0)
  }

  function Traverse(s: File, r: seq<seq<Byte>>, off: nat): File {
    if off == 0 then Rewind(s) else Retry(Grab(Rewind(s)), r, off)
  }

  /** The position that seq_lseek moves to, if it is a legal one. */
  function Target(pos: nat, off: int, origin: nat): Option<nat> {
    var o := if origin == 1 then off + pos else off;
    if origin > 1 || o < 0 then None else Some(o)
  }

  /** seq_lseek; None stands for -EINVAL. */
  function Seek(s: File, r: seq<seq<Byte>>, off: int, origin: nat): File {
    var o := Target(s.pos, off, origin);
    if o.None? || o.value == s.pos then s else Traverse(s, r, o.value).(pos := o.value)
  }

  /** The state k bytes into record `at`. */
  lemma Landing(r: seq<seq<Byte>>, at: nat, k: nat, t: File)
    requires at < |r| && k <= |r[at]| && t.buf == r[at] && t.size > 0
    requires if k < |r[at]| then t.from == k && t.count == |r[at]| - k && t.index == at else t.count == 0 && t.index == at + 1
    ensures Valid(t) && (t.count > 0 ==> t.index < |r|) && Rest(t, r) == Drop(Concat(r), |Concat(r[..at])| + k)
  {
    Spread(r, at);
    DropInto(Concat(r[..at]), r[at], Concat(r[at + 1..]), k);
    assert Held(t) == r[at][k..];
    assert Tail(r, NextIndex(t)) == Concat(r[at + 1..]);
  }

  lemma {:induction false} TraverseLands(s: File, r: seq<seq<Byte>>, off: nat, at: nat, pos: nat)
    requires s.count == 0 && at <= |r| && pos == |Concat(r[..at])| && pos < off && s.size > 0
    ensures var t := TraverseFrom(s, r, off, at, pos);
            t.Some? ==> Valid(t.value) && (t.value.count > 0 ==> t.value.index < |r|) && Rest(t.value, r) == Drop(Concat(r), off)
    decreases |r| - at
  {
    hide Rest, Held;
    if at == |r| {
      assert r[..at] == r && r[at..] == [];
      RestEmpty(s.(index := at), r);
    } else {
      var s1 := Show(s, r[at]);
      if s1.count < s1.size {
        assert s1.buf == r[at];
        if pos + s1.count >= off {
          Landing(r, at, off - pos, TraverseFrom(s, r, off, at, pos).value);
        } else {
          assert |Concat(r[..at + 1])| == pos + s1.count by {
            ConcatLast(r, 0, at);
            assert r[0..at] == r[..at] && r[0..at + 1] == r[..at + 1];
          }
          TraverseLands(s1.(count := 0), r, off, at + 1, pos + s1.count);
        }
      }
    }
  }

  lemma Spread(r: seq<seq<Byte>>, at: nat)
    requires at < |r|
    ensures Concat(r) == Concat(r[..at]) + r[at] + Concat(r[at + 1..])
  {
    ConcatSplit(r, 0, at);
    ConcatFirst(r, at);
    assert r[0..at] == r[..at] && r[0..] == r;
    Associate(Concat(r[..at]), r[at], Concat(r[at + 1..]));
  }

  lemma DropInto(a: seq<Byte>, b: seq<Byte>, c: seq<Byte>, k: nat)
    requires k <= |b|
    ensures Drop(a + b + c, |a| + k) == b[k..] + c
  {
  }

  lemma {:induction false} RetryLands(s: File, r: seq<seq<Byte>>, off: nat)
    requires s.count == 0 && s.size > 0 && off > 0
    ensures var t := Retry(s, r, off);
            Valid(t) && (t.count > 0 ==> t.index < |r|) && Rest(t, r) == Drop(Concat(r), off)
    decreases if s.size <= Longest(r) then Longest(r) - s.size + 1 else 0
  {
    var t := TraverseFrom(s, r, off, 0, 0);
    assert r[..0] == [];
    if t.Some? {
      TraverseLands(s, r, off, 0, 0);
    } else {
      OverflowIsLong(s, r, off, 0, 0);
      RetryLands(s.(buf := [], size := 2 * s.size), r, off);
    }
  }

  /** After seq_lseek to any offset the file stands as if that many bytes had been
      read from the start; a refused seek changes nothing. */
  lemma SeekLands(s: File, r: seq<seq<Byte>>, off: int, origin: nat)
    requires Represents(s, r)
    ensures Represents(Seek(s, r, off, origin), r)
    ensures var to := if origin == 0 then off else s.pos + off;
            if origin <= 1 && to >= 0 then Seek(s, r, off, origin).pos == to else Seek(s, r, off, origin) == s
  {
    var o := Target(s.pos, off, origin);
    if o.Some? && o.value != s.pos {
      if o.value == 0 {
        assert r[0..] == r;
        RestEmpty(Rewind(s).(pos := 0), r);
      } else {
        RetryLands(Grab(Rewind(s)), r, o.value);
        RestIgnoresPos(Traverse(s, r, o.value), r, o.value);
      }
    }
  }

  // ---------- any series of calls ----------

  datatype Call = ReadCall(want: nat) | SeekCall(off: int, origin: nat)

  function After(s: File, r: seq<seq<Byte>>, c: Call, junk: nat -> Byte): File
    requires Valid(s)
  {
    match c
    case ReadCall(want) => Read(s, r, want, junk).0
    case SeekCall(off, origin) => Seek(s, r, off, origin)
  }

  function Output(s: File, r: seq<seq<Byte>>, c: Call, junk: nat -> Byte): seq<Byte>
    requires Valid(s)
  {
    match c
    case ReadCall(want) => Read(s, r, want, junk).1
    case SeekCall(_, _) => []
  }

  /** No read of the series has to enlarge the buffer. */
  ghost predicate Clean(s: File, r: seq<seq<Byte>>, calls: seq<Call>, junk: nat -> Byte)
    decreases |calls|
  {
    calls == [] ||
    (Valid(s) && (calls[0].ReadCall? ==> !Regrows(s, r, calls[0].want)) && Clean(After(s, r, calls[0], junk), r, calls[1..], junk))
  }

  function Outputs(s: File, r: seq<seq<Byte>>, calls: seq<Call>, junk: nat -> Byte): (outs: seq<seq<Byte>>)
    requires Clean(s, r, calls, junk)
    ensures |outs| == |calls|
    decreases |calls|
  {
    if calls == [] then []
    else [Output(s, r, calls[0], junk)] + Outputs(After(s, r, calls[0], junk), r, calls[1..], junk)
  }

  /** Where a seek leads that is counted from the start (0) or from where the reader stands (1);
      before the start there is nothing, and no other way of counting. */
  function GoesTo(pos: nat, off: int, origin: nat): nat {
    if origin == 0 && off >= 0 then off
    else if origin == 1 && pos + off >= 0 then pos + off
    else pos
  }

  /** What a reader of the plain byte string `b` at `pos` may see. */
  ghost predicate PlainReader(b: seq<Byte>, pos: nat, calls: seq<Call>, outs: seq<seq<Byte>>)
    decreases |calls|
  {
    |outs| == |calls| &&
    (calls == [] ||
     match calls[0]
     case ReadCall(want) => |outs[0]| <= want && outs[0] <= Drop(b, pos) && PlainReader(b, pos + |outs[0]|, calls[1..], outs[1..])
     case SeekCall(off, origin) =>
       outs[0] == [] && PlainReader(b, GoesTo(pos, off, origin), calls[1..], outs[1..]))
  }

  /** One call does what a reader of the plain byte string does. */
  lemma StepIsPlain(s: File, r: seq<seq<Byte>>, c: Call, junk: nat -> Byte)
    requires Represents(s, r) && (c.ReadCall? ==> !Regrows(s, r, c.want))
    ensures Represents(After(s, r, c, junk), r)
    ensures c.ReadCall? ==> Output(s, r, c, junk) <= Drop(Concat(r), s.pos) && After(s, r, c, junk).pos == s.pos + |Output(s, r, c, junk)|
    ensures c.ReadCall? ==> |Output(s, r, c, junk)| <= c.want
    ensures c.SeekCall? ==>
              After(s, r, c, junk).pos == GoesTo(s.pos, c.off, c.origin)
  {
    match c {
      case ReadCall(want) => ReadCorrectIff(s, r, want, junk);
      case SeekCall(off, origin) => SeekLands(s, r, off, origin);
    }
  }

  lemma PlainStep(b: seq<Byte>, pos: nat, pos': nat, calls: seq<Call>, out: seq<Byte>, outs: seq<seq<Byte>>)
    requires calls != [] && PlainReader(b, pos', calls[1..], outs)
    requires calls[0].ReadCall? ==> |out| <= calls[0].want && out <= Drop(b, pos) && pos' == pos + |out|
    requires calls[0].SeekCall? ==>
               out == [] && pos' == GoesTo(pos, calls[0].off, calls[0].origin)
    ensures PlainReader(b, pos, calls, [out] + outs)
  {
    assert ([out] + outs)[1..] == outs;
  }

  /** Any series of reads and seeks is a reader of the concatenated records. */
  lemma {:induction false} RunIsPlain(s: File, r: seq<seq<Byte>>, calls: seq<Call>, junk: nat -> Byte)
    requires Represents(s, r) && Clean(s, r, calls, junk)
    ensures PlainReader(Concat(r), s.pos, calls, Outputs(s, r, calls, junk))
    decreases |calls|
  {
    if calls != [] {
      var s' := After(s, r, calls[0], junk);
      StepIsPlain(s, r, calls[0], junk);
      RunIsPlain(s', r, calls[1..], junk);
      PlainStep(Concat(r), s.pos, s'.pos, calls, Output(s, r, calls[0], junk), Outputs(s', r, calls[1..], junk));
    }
  }

  /** A read, and a seek back by what it gave. */
  function ThereAndBack(s: File, r: seq<seq<Byte>>, want: nat, junk: nat -> Byte): File
    requires Valid(s)
  {
    Seek(After(s, r, ReadCall(want), junk), r, -|Output(s, r, ReadCall(want), junk)|, 1)
  }

  /** From every represented state: after that the file stands where it stood, and another read
      delivers bytes from there. */
  lemma ReadAgain(s: File, r: seq<seq<Byte>>, want: nat, again: nat, junk: nat -> Byte)
    requires Represents(s, r) && !Regrows(s, r, want)
    ensures var t := ThereAndBack(s, r, want, junk);
            && Represents(t, r) && t.pos == s.pos
            && (!Regrows(t, r, again) ==> Output(t, r, ReadCall(again), junk) <= Drop(Concat(r), s.pos))
  {
    hide Read, Seek, Regrows, Concat, Rest;
    StepIsPlain(s, r, ReadCall(want), junk);
    SeekLands(After(s, r, ReadCall(want), junk), r, -|Output(s, r, ReadCall(want), junk)|, 1);
    var t := ThereAndBack(s, r, want, junk);
    if !Regrows(t, r, again) { StepIsPlain(t, r, ReadCall(again), junk); }
  }

  lemma OpenRepresents(r: seq<seq<Byte>>)
    ensures Represents(Opened, r)
  {
    assert r[0..] == r;
    RestEmpty(Opened, r);
  }

  ghost predicate OnlyReads(calls: seq<Call>) {
    forall i :: 0 <= i < |calls| ==> calls[i].ReadCall?
  }

  /** Reads alone return consecutive pieces. */
  lemma {:induction false} PiecesInARow(b: seq<Byte>, pos: nat, calls: seq<Call>, outs: seq<seq<Byte>>)
    requires PlainReader(b, pos, calls, outs) && OnlyReads(calls)
    ensures Concat(outs) <= Drop(b, pos)
    decreases |calls|
  {
    if calls != [] {
      PiecesInARow(b, pos + |outs[0]|, calls[1..], outs[1..]);
      PrefixOff(b, pos, outs[0]);
    }
  }

  // ---------- records shorter than a page ----------

  ghost predicate Short(r: seq<seq<Byte>>) {
    forall i :: 0 <= i < |r| ==> |r[i]| < PAGE_SIZE
  }

  ghost predicate Roomy(s: File) {
    Valid(s) && (s.size > 0 ==> s.size >= PAGE_SIZE)
  }

  lemma {:induction false} FirstRecordGrows(s: File, rec: seq<Byte>, junk: nat -> Byte)
    requires s.count <= |s.buf| && s.count <= s.size && s.size > 0
    ensures FirstRecord(s, rec, junk).size >= s.size
    decreases if |rec| >= s.size then |rec| - s.size + 1 else 0, if s.count + |rec| >= s.size then 1 else 0
  {
    var s1 := Show(s, rec);
    if s1.count == s1.size { FirstRecordGrows(s1.(buf := seq<Byte>(s1.count, junk), size := 2 * s1.size), rec, junk); }
  }

  lemma RefillRoomy(s: File, r: seq<seq<Byte>>, want: nat, junk: nat -> Byte)
    requires s.count == 0 && s.size >= PAGE_SIZE
    ensures Roomy(Refill(s, r, want, junk).0)
  {
    if s.index < |r| {
      FirstRecordGrows(s, r[s.index], junk);
      var s1 := FirstRecord(s, r[s.index], junk);
      FillAppends(s1, r, s.index, want);
      var f := Fill(s1, r, s.index, want);
      DeliverHeld(f.0, f.1, want);
    }
  }

  lemma ReadRoomy(s: File, r: seq<seq<Byte>>, want: nat, junk: nat -> Byte)
    requires Roomy(s) && (s.count > 0 ==> s.index < |r|)
    ensures Roomy(Read(s, r, want, junk).0)
  {
    hide Rest, Read, Refill;
    var s1, a, s2, b := ReadInHalves(s, r, want, junk);
    if Refills(s, want) { RefillRoomy(s1, r, want - |a|, junk); }
    RestIgnoresPos(s2, r, s.pos + |a + b|);
  }

  lemma {:induction false} TraverseSize(s: File, r: seq<seq<Byte>>, off: nat, at: nat, pos: nat)
    requires s.count == 0 && at <= |r| && pos <= off
    ensures var t := TraverseFrom(s, r, off, at, pos); t.Some? ==> t.value.size == s.size
    decreases |r| - at
  {
    if at < |r| {
      var s1 := Show(s, r[at]);
      if s1.count < s1.size && pos + s1.count < off { TraverseSize(s1.(count := 0), r, off, at + 1, pos + s1.count); }
    }
  }

  lemma {:induction false} RetryGrows(s: File, r: seq<seq<Byte>>, off: nat)
    requires s.count == 0 && s.size > 0
    ensures Retry(s, r, off).size >= s.size
    decreases if s.size <= Longest(r) then Longest(r) - s.size + 1 else 0
  {
    var t := TraverseFrom(s, r, off, 0, 0);
    if t.Some? {
      TraverseSize(s, r, off, 0, 0);
    } else {
      OverflowIsLong(s, r, off, 0, 0);
      RetryGrows(s.(buf := [], size := 2 * s.size), r, off);
    }
  }

  lemma SeekRoomy(s: File, r: seq<seq<Byte>>, off: int, origin: nat)
    requires Roomy(s) && Represents(s, r)
    ensures Roomy(Seek(s, r, off, origin))
  {
    SeekLands(s, r, off, origin);
    var o := Target(s.pos, off, origin);
    if o.Some? && o.value != s.pos && o.value != 0 { RetryGrows(Grab(Rewind(s)), r, o.value); }
  }

  /** With records shorter than a page no series of calls ever enlarges the buffer in a read. */
  lemma {:induction false} ShortIsClean(s: File, r: seq<seq<Byte>>, calls: seq<Call>, junk: nat -> Byte)
    requires Short(r) && Roomy(s) && Represents(s, r)
    ensures Clean(s, r, calls, junk)
    decreases |calls|
  {
    if calls != [] {
      match calls[0] {
        case ReadCall(want) =>
          ReadCorrectIff(s, r, want, junk);
          ReadRoomy(s, r, want, junk);
        case SeekCall(off, origin) =>
          SeekLands(s, r, off, origin);
          SeekRoomy(s, r, off, origin);
      }
      ShortIsClean(After(s, r, calls[0], junk), r, calls[1..], junk);
    }
  }

  /** With records shorter than a page: after a seek to `off`, any reads return
      consecutive pieces of the concatenation from there on. */
  lemma ReadsAfterSeek(r: seq<seq<Byte>>, off: nat, wants: seq<Call>, junk: nat -> Byte)
    requires Short(r) && OnlyReads(wants)
    ensures Represents(Seek(Opened, r, off, 0), r) && Clean(Seek(Opened, r, off, 0), r, wants, junk)
    ensures Concat(Outputs(Seek(Opened, r, off, 0), r, wants, junk)) <= Drop(Concat(r), off)
  {
    OpenRepresents(r);
    SeekLands(Opened, r, off, 0);
    SeekRoomy(Opened, r, off, 0);
    var s := Seek(Opened, r, off, 0);
    ShortIsClean(s, r, wants, junk);
    RunIsPlain(s, r, wants, junk);
    PiecesInARow(Concat(r), off, wants, Outputs(s, r, wants, junk));
  }

  lemma {:induction false} ShortNotStuck(r: seq<seq<Byte>>, at: nat, size: nat)
    requires Short(r) && size >= PAGE_SIZE
    ensures !Stuck(r, at, size)
    decreases |r| - at
  {
    if at < |r| && r[at] == [] { ShortNotStuck(r, at + 1, size); }
  }

  /** With records shorter than a page, a read that returns nothing is at the end. */
  lemma ShortProgress(s: File, r: seq<seq<Byte>>, want: nat, junk: nat -> Byte)
    requires Short(r) && Roomy(s) && Represents(s, r) && want > 0
    ensures Read(s, r, want, junk).1 == [] ==> Drop(Concat(r), s.pos) == []
  {
    NothingReadIff(s, r, want, junk);
    ShortNotStuck(r, s.index, Grab(s).size);
  }

  lemma ShortStep(s: File, r: seq<seq<Byte>>, c: Call, junk: nat -> Byte)
    requires Short(r) && Roomy(s) && Represents(s, r) && c.ReadCall?
    ensures Roomy(After(s, r, c, junk)) && Represents(After(s, r, c, junk), r)
    ensures Drop(Concat(r), s.pos) == Output(s, r, c, junk) + Drop(Concat(r), After(s, r, c, junk).pos)
    ensures c.want > 0 && Output(s, r, c, junk) == [] ==> Drop(Concat(r), s.pos) == []
  {
    hide Rest, Read;
    StepIsPlain(s, r, c, junk);
    ReadRoomy(s, r, c.want, junk);
    if c.want > 0 { ShortProgress(s, r, c.want, junk); }
    PrefixOff(Concat(r), s.pos, Output(s, r, c, junk));
  }

  lemma PrefixOff(b: seq<Byte>, pos: nat, out: seq<Byte>)
    requires out <= Drop(b, pos)
    ensures Drop(b, pos) == out + Drop(b, pos + |out|)
  {
    var d := Drop(b, pos);
    DropMore(b, pos, |out|);
    assert d == out + d[|out|..];
  }

  /** With records shorter than a page: reads that end with an empty one have
      delivered everything. */
  lemma {:induction false} EmptyReadMeansEnd(s: File, r: seq<seq<Byte>>, calls: seq<Call>, junk: nat -> Byte)
    requires Short(r) && Roomy(s) && Represents(s, r) && OnlyReads(calls) && calls != [] && calls[|calls| - 1].want > 0
    requires Clean(s, r, calls, junk) && Outputs(s, r, calls, junk)[|calls| - 1] == []
    ensures Concat(Outputs(s, r, calls, junk)) == Drop(Concat(r), s.pos)
    decreases |calls|
  {
    var s', out := After(s, r, calls[0], junk), Output(s, r, calls[0], junk);
    ShortStep(s, r, calls[0], junk);
    var outs := Outputs(s', r, calls[1..], junk);
    assert Outputs(s, r, calls, junk) == [out] + outs;
    assert ([out] + outs)[1..] == outs;
    if |calls| == 1 {
      assert outs == [];
    } else {
      EmptyReadMeansEnd(s', r, calls[1..], junk);
    }
  }
}
