/** Sequential files: records printed into a buffer and read in pieces of any
    size. The records do not change while the file is open. */
module SeqFile {
  import opened Bytes

  const PAGE_SIZE: nat := 4096

  /** `buf` is the written part of the buffer of `size` bytes (0: none yet);
      bytes [from, from + count) of it wait to be read and belong to record
      `index`. `pos` is the file position. */
  datatype File = File(buf: seq<Byte>, size: nat, count: nat, from: nat, index: nat, pos: nat)

  const Opened := File([], 0, 0, 0, 0, 0)

  ghost predicate Valid(s: File) {
    && (s.count > 0 ==> s.from + s.count <= |s.buf|)
    && (s.size == 0 ==> s.count == 0)
  }

  /** ->show() of one record: seq_printf behind what is there, or "full" on overflow. */
  function Show(s: File, rec: seq<Byte>): (r: File)
    requires s.count <= |s.buf| && s.count <= s.size
    ensures r.count <= |r.buf| && r.count <= r.size
  {
    if s.count + |rec| < s.size then s.(buf := s.buf[..s.count] + rec, count := s.count + |rec|)
    else s.(buf := s.buf[..s.count] + rec[..s.size - s.count], count := s.size)
  }

  function Min(a: nat, b: nat): nat { if a < b then a else b }

  /** The buffer, allocated on first use. */
  function Grab(s: File): File {
    if s.size == 0 then s.(buf := [], size := PAGE_SIZE) else s
  }

  /** What is left in the buffer goes out first. */
  function Flush(s: File, want: nat): (File, seq<Byte>)
    requires Valid(s)
  {
    if s.count == 0 then (s, [])
    else
      var n := Min(s.count, want);
      (s.(count := s.count - n, from := s.from + n, index := if n == s.count then s.index + 1 else s.index),
       s.buf[s.from..s.from + n])
  }

  /** The first loop of seq_read: double the buffer until the record
      is shown without overflow. `junk` is what fresh memory holds. */
  function FirstRecord(s: File, rec: seq<Byte>, junk: nat -> Byte): (r: File)
    requires s.count <= |s.buf| && s.count <= s.size && s.size > 0
    ensures r.count <= |r.buf| && r.count < r.size && r.index == s.index && r.pos == s.pos
    ensures r.count >= s.count + |rec|
    decreases if |rec| >= s.size then |rec| - s.size + 1 else 0, if s.count + |rec| >= s.size then 1 else 0
  {
    var s1 := Show(s, rec);
    if s1.count < s1.size then s1
    else FirstRecord(s1.(buf := seq<Byte>(s1.count, junk), size := 2 * s1.size), rec, junk)
  }

  /** The second loop of seq_read: further records, as long as they fit and are wanted. */
  function Fill(s: File, r: seq<seq<Byte>>, at: nat, want: nat): (f: (File, nat))
    requires s.count <= |s.buf| && s.count < s.size && at < |r|
    ensures f.0.count <= |f.0.buf| && f.0.count < f.0.size && at <= f.1 < |r|
    decreases |r| - at
  {
    if s.count >= want || at + 1 == |r| then (s, at)
    else
      var s1 := Show(s, r[at + 1]);
      if s1.count == s1.size then (s1.(count := s.count), at)
      else Fill(s1, r, at + 1, want)
  }

  /** The end of seq_read: hand out what was filled and remember the rest. */
  function Deliver(s: File, at: nat, want: nat): (File, seq<Byte>)
    requires s.count <= |s.buf|
  {
    var n := Min(s.count, want);
    if s.count > n then (s.(count := s.count - n, from := n, index := at), s.buf[..n])
    else (s.(count := 0, index := at + 1), s.buf[..n])
  }

  /** Everything after the buffer has been flushed. */
  function Refill(s: File, r: seq<seq<Byte>>, want: nat, junk: nat -> Byte): (File, seq<Byte>)
    requires s.count == 0 && s.size > 0
  {
    if s.index >= |r| then (s, [])
    else
      var s1 := FirstRecord(s, r[s.index], junk);
      var (s2, at) := Fill(s1, r, s.index, want);
      Deliver(s2, at, want)
  }

  /** seq_read of `want` bytes. */
  function Read(s: File, r: seq<seq<Byte>>, want: nat, junk: nat -> Byte): (File, seq<Byte>)
    requires Valid(s)
  {
    var s0 := Grab(s);
    var (s1, a) := Flush(s0, want);
    var (s2, b) := if s0.count > 0 && |a| == want then (s1, []) else Refill(s1, r, want - |a|, junk);
    (s2.(pos := s.pos + |a + b|), a + b)
  }

  // ---------- what a state stands for ----------

  /** What waits in the buffer. */
  function Held(s: File): seq<Byte>
    requires Valid(s)
  {
    if s.count > 0 then s.buf[s.from..s.from + s.count] else []
  }

  /** The record that must be put into the buffer next. */
  function NextIndex(s: File): nat {
    if s.count > 0 then s.index + 1 else s.index
  }

  function Tail(r: seq<seq<Byte>>, index: nat): seq<Byte> {
    if index <= |r| then Concat(r[index..]) else []
  }

  /** The bytes still to come from a state. */
  function Rest(s: File, r: seq<seq<Byte>>): seq<Byte>
    requires Valid(s)
  {
    Held(s) + Tail(r, NextIndex(s))
  }

  function Drop(b: seq<Byte>, n: nat): seq<Byte> {
    if n <= |b| then b[n..] else []
  }

  /** The state is where a reader of the plain concatenation would be. */
  ghost predicate Represents(s: File, r: seq<seq<Byte>>) {
    Valid(s) && (s.count > 0 ==> s.index < |r|) && Rest(s, r) == Drop(Concat(r), s.pos)
  }
}
