/** The argument image of execve: strings laid out towards the top of a block of
    pages, and read back into pointer tables. */
module ExecImage {
  import opened Bytes

  const PAGE_SIZE: nat := 4096
  const MAX_ARG_PAGES: nat := 32
  const TOP_OF_ARGS: nat := PAGE_SIZE * MAX_ARG_PAGES - 4

  /** What do_execve lets count() accept: one string per pointer that would fit. */
  const MAX_STRINGS: nat := TOP_OF_ARGS / 4

  type Text = seq<Byte>

  /** A C string: no NUL inside. */
  predicate IsText(s: Text) {
    forall i :: 0 <= i < |s| ==> s[i] != 0
  }

  predicate AreTexts(l: seq<Text>) {
    forall i :: 0 <= i < |l| ==> IsText(l[i])
  }

  /** The strings one after the other, each with its NUL. */
  function Flat(l: seq<Text>): seq<Byte> {
    if l == [] then [] else l[0] + [0] + Flat(l[1..])
  }

  lemma {:induction false} FlatJoin(a: seq<Text>, b: seq<Text>)
    ensures Flat(a + b) == Flat(a) + Flat(b)
  {
    if a == [] {
      assert a + b == b;
    } else {
      FlatJoin(a[1..], b);
      assert (a + b)[1..] == a[1..] + b && (a + b)[0] == a[0];
      Associate(a[0] + [0], Flat(a[1..]), Flat(b));
    }
  }

  lemma FlatOne(s: Text)
    ensures Flat([s]) == s + [0]
  {
    assert Flat([s]) == s + [0] + Flat([]);
  }

  /** The string before those from i on. */
  lemma FlatFrom(l: seq<Text>, i: nat)
    requires i < |l|
    ensures Flat(l[i..]) == l[i] + [0] + Flat(l[i + 1..])
  {
    assert l[i..][1..] == l[i + 1..];
  }

  /** Where the i-th string begins. */
  function Offset(l: seq<Text>, i: nat): nat
    requires i <= |l|
  {
    |Flat(l[..i])|
  }

  lemma OffsetNext(l: seq<Text>, i: nat)
    requires i < |l|
    ensures Offset(l, i + 1) == Offset(l, i) + |l[i]| + 1
  {
    assert l[..i + 1] == l[..i] + [l[i]];
    FlatJoin(l[..i], [l[i]]);
    FlatOne(l[i]);
  }

  lemma FlatSplit(l: seq<Text>, i: nat)
    requires i <= |l|
    ensures Flat(l) == Flat(l[..i]) + Flat(l[i..])
  {
    assert l == l[..i] + l[i..];
    FlatJoin(l[..i], l[i..]);
  }

  /** One more string in front. */
  lemma FlatPush(l: seq<Text>, i: nat, rest: seq<Byte>)
    requires i < |l|
    ensures l[i] + [0] + (Flat(l[i + 1..]) + rest) == Flat(l[i..]) + rest
    ensures |Flat(l[i..])| == |l[i]| + 1 + |Flat(l[i + 1..])| && |Flat(l[i..])| <= |Flat(l)|
  {
    FlatFrom(l, i);
    FlatSplit(l, i);
  }

  // ---------- pages ----------

  type Pages = map<nat, seq<Byte>>

  ghost predicate PagesOk(m: Pages) {
    forall i :: i in m ==> |m[i]| == PAGE_SIZE
  }

  /** The byte at address a; nothing is there before its page is allocated. */
  function At(m: Pages, a: nat): Byte
    requires PagesOk(m)
  {
    if a / PAGE_SIZE in m then m[a / PAGE_SIZE][a % PAGE_SIZE] else 0
  }

  function Region(m: Pages, lo: nat, hi: nat): (r: seq<Byte>)
    requires PagesOk(m) && lo <= hi
    ensures |r| == hi - lo && forall i :: 0 <= i < |r| ==> r[i] == At(m, lo + i)
  {
    seq(hi - lo, i requires 0 <= i && PagesOk(m) => At(m, lo + i))
  }

  lemma InPage(pos: nat, n: nat, a: nat)
    requires pos % PAGE_SIZE + n <= PAGE_SIZE
    ensures pos <= a < pos + n <==> a / PAGE_SIZE == pos / PAGE_SIZE && pos % PAGE_SIZE <= a % PAGE_SIZE < pos % PAGE_SIZE + n
  {
    assert pos == pos / PAGE_SIZE * PAGE_SIZE + pos % PAGE_SIZE;
    assert a == a / PAGE_SIZE * PAGE_SIZE + a % PAGE_SIZE;
  }

  /** `piece` has been put at `pos` and nothing else changed. */
  ghost predicate Stored(m: Pages, m': Pages, pos: nat, piece: seq<Byte>) {
    && PagesOk(m) && PagesOk(m') && m.Keys <= m'.Keys
    && (forall a: nat :: pos <= a < pos + |piece| ==> a / PAGE_SIZE in m')
    && (forall a: nat :: At(m', a) == if pos <= a < pos + |piece| then piece[a - pos] else At(m, a))
  }

  /** Byte k of the page of `pos` after `piece` was stored there. */
  function PageByte(m: Pages, pos: nat, piece: seq<Byte>, k: nat): Byte
    requires PagesOk(m) && k < PAGE_SIZE
  {
    if pos % PAGE_SIZE <= k < pos % PAGE_SIZE + |piece| then piece[k - pos % PAGE_SIZE]
    else if pos / PAGE_SIZE in m then m[pos / PAGE_SIZE][k] else 0
  }

  /** One piece within a page; a new page is zero around it. */
  lemma StorePiece(m: Pages, m': Pages, pos: nat, piece: seq<Byte>, page: seq<Byte>)
    requires PagesOk(m) && pos % PAGE_SIZE + |piece| <= PAGE_SIZE && |page| == PAGE_SIZE
    requires forall k :: 0 <= k < PAGE_SIZE ==> page[k] == PageByte(m, pos, piece, k)
    requires m' == m[pos / PAGE_SIZE := page]
    ensures Stored(m, m', pos, piece)
  {
    forall a: nat ensures At(m', a) == if pos <= a < pos + |piece| then piece[a - pos] else At(m, a) {
      InPage(pos, |piece|, a);
      StorePieceAt(pos, |piece|, a);
    }
    forall a: nat | pos <= a < pos + |piece| ensures a / PAGE_SIZE in m' { InPage(pos, |piece|, a); }
  }

  lemma StorePieceAt(pos: nat, n: nat, a: nat)
    requires pos % PAGE_SIZE + n <= PAGE_SIZE
    ensures pos <= a < pos + n ==> a % PAGE_SIZE - pos % PAGE_SIZE == a - pos
  {
    InPage(pos, n, a);
    assert pos == pos / PAGE_SIZE * PAGE_SIZE + pos % PAGE_SIZE;
    assert a == a / PAGE_SIZE * PAGE_SIZE + a % PAGE_SIZE;
  }

  lemma StoredNothing(m: Pages, pos: nat)
    requires PagesOk(m)
    ensures Stored(m, m, pos, [])
  {
  }

  lemma StoredPages(m: Pages, m': Pages, pos: nat, piece: seq<Byte>)
    requires Stored(m, m', pos, piece)
    ensures PagesOk(m') && forall a: nat :: a / PAGE_SIZE in m || pos <= a < pos + |piece| ==> a / PAGE_SIZE in m'
  {
  }

  lemma StoredTwice(m: Pages, m1: Pages, m2: Pages, pos: nat, a: seq<Byte>, b: seq<Byte>)
    requires Stored(m, m1, pos, a) && Stored(m1, m2, pos + |a|, b)
    ensures Stored(m, m2, pos, a + b)
  {
  }

  lemma RegionStored(m: Pages, m': Pages, pos: nat, piece: seq<Byte>, hi: nat)
    requires Stored(m, m', pos, piece) && pos + |piece| <= hi
    ensures Region(m', pos, hi) == piece + Region(m, pos + |piece|, hi)
  {
  }

  lemma RegionFrom(m: Pages, lo: nat, mid: nat, hi: nat)
    requires PagesOk(m) && lo <= mid <= hi
    ensures Region(m, mid, hi) == Region(m, lo, hi)[mid - lo..]
  {
  }

  lemma PageStep(p: nat)
    ensures p % PAGE_SIZE + 1 < PAGE_SIZE ==> (p + 1) % PAGE_SIZE == p % PAGE_SIZE + 1 && (p + 1) / PAGE_SIZE == p / PAGE_SIZE
    ensures p % PAGE_SIZE + 1 == PAGE_SIZE ==> (p + 1) % PAGE_SIZE == 0
  {
  }

  // ---------- reading back ----------

  /** The first NUL at or after k. */
  function NulAt(b: seq<Byte>, k: nat): (n: nat)
    requires k <= |b|
    ensures k <= n <= |b| && (n < |b| ==> b[n] == 0) && forall i :: k <= i < n ==> b[i] != 0
    decreases |b| - k
  {
    if k == |b| || b[k] == 0 then k else NulAt(b, k + 1)
  }

  /** From `start` on, the first zero byte is where NulAt says. */
  lemma ScanByte(m: Pages, start: nat, p: nat, hi: nat)
    requires PagesOk(m) && start <= hi && start <= p <= start + NulAt(Region(m, start, hi), 0) < hi && p / PAGE_SIZE in m
    ensures m[p / PAGE_SIZE][p % PAGE_SIZE] == 0 <==> p == start + NulAt(Region(m, start, hi), 0)
  {
    assert Region(m, start, hi)[p - start] == At(m, p);
  }

  /** In an image, the string that begins at offset i ends at the first NUL. */
  lemma NulEnds(pre: seq<Byte>, s: Text, post: seq<Byte>)
    requires IsText(s)
    ensures NulAt(pre + (s + [0] + post), |pre|) == |pre| + |s|
  {
    var b := pre + (s + [0] + post);
    assert b[|pre| + |s|] == 0;
    assert forall i :: 0 <= i < |s| ==> b[|pre| + i] == s[i];
  }

  /** Stepping over the first string leaves the image of the others. */
  lemma WithoutFirst(argv: seq<Text>, rest: seq<Byte>)
    requires AreTexts(argv) && argv != []
    ensures var image := Flat(argv) + rest;
            NulAt(image, 0) == |argv[0]| < |image| && image[NulAt(image, 0) + 1..] == Flat(argv[1..]) + rest
  {
    var more := Flat(argv[1..]) + rest;
    Associate(argv[0] + [0], Flat(argv[1..]), rest);
    assert [] + (argv[0] + [0] + more) == argv[0] + [0] + more;
    NulEnds([], argv[0], more);
  }

  // ---------- the new stack ----------

  /** The bytes of b are at address a and up. */
  ghost predicate Holds(mem: map<nat, Byte>, a: nat, b: seq<Byte>) {
    forall c: nat :: a <= c < a + |b| ==> c in mem && mem[c] == b[c - a]
  }

  lemma HoldsPart(mem: map<nat, Byte>, a: nat, x: seq<Byte>, y: seq<Byte>, z: seq<Byte>)
    requires Holds(mem, a, x + y + z)
    ensures Holds(mem, a + |x|, y) && Holds(mem, a + |x| + |y|, z)
  {
    var b := x + y + z;
    forall c: nat | a + |x| <= c < a + |x| + |y| ensures c in mem && mem[c] == y[c - a - |x|] {
      assert b[c - a] == y[c - a - |x|];
    }
    forall c: nat | a + |x| + |y| <= c < a + |x| + |y| + |z| ensures c in mem && mem[c] == z[c - a - |x| - |y|] {
      assert b[c - a] == z[c - a - |x| - |y|];
    }
  }

  lemma FlatAround(l: seq<Text>, i: nat)
    requires i < |l|
    ensures Flat(l) == Flat(l[..i]) + (l[i] + [0]) + Flat(l[i + 1..])
  {
    FlatSplit(l, i);
    FlatFrom(l, i);
    hide Flat;
    Associate(Flat(l[..i]), l[i] + [0], Flat(l[i + 1..]));
  }

  lemma HoldsBoth(mem: map<nat, Byte>, a: nat, x: seq<Byte>, y: seq<Byte>, z: seq<Byte>)
    requires Holds(mem, a, x + y + z)
    ensures Holds(mem, a, x) && Holds(mem, a + |x|, y)
  {
    HoldsPart(mem, a, x, y, z);
    forall c: nat | a <= c < a + |x| ensures c in mem && mem[c] == x[c - a] {
      assert (x + y + z)[c - a] == x[c - a];
    }
  }

  lemma NothingHeld(mem: map<nat, Byte>, q: nat, b: seq<Byte>)
    ensures Holds(mem, q, b[|b|..])
  {
  }

  /** One more byte in front. */
  lemma HoldsPush(mem: map<nat, Byte>, q: nat, b: seq<Byte>, i: nat)
    requires q > 0 && i < |b| && Holds(mem, q, b[i + 1..])
    ensures Holds(mem[q - 1 := b[i]], q - 1, b[i..])
  {
  }

  /** The i-th string of a list, where it lies in memory. */
  lemma HoldsString(mem: map<nat, Byte>, a: nat, l: seq<Text>, i: nat)
    requires i < |l| && Holds(mem, a, Flat(l))
    ensures Holds(mem, a + Offset(l, i), l[i] + [0])
  {
    hide Holds, Flat;
    FlatAround(l, i);
    HoldsPart(mem, a, Flat(l[..i]), l[i] + [0], Flat(l[i + 1..]));
  }

  /** A table of pointers to the strings of l, which lie in order from `base` on,
      closed by a null pointer. */
  ghost predicate Table(words: map<nat, nat>, mem: map<nat, Byte>, tab: nat, l: seq<Text>, base: nat) {
    && (forall i :: 0 <= i < |l| ==> Entry(words, mem, tab, l, base, i))
    && tab + 4 * |l| in words && words[tab + 4 * |l|] == 0
  }

  ghost predicate Entry(words: map<nat, nat>, mem: map<nat, Byte>, tab: nat, l: seq<Text>, base: nat, i: nat)
    requires i < |l|
  {
    && tab + 4 * i in words && words[tab + 4 * i] == base + Offset(l, i)
    && Holds(mem, words[tab + 4 * i], l[i] + [0])
  }

  /** Words outside a table do not matter to it. */
  lemma TableKept(words: map<nat, nat>, words': map<nat, nat>, mem: map<nat, Byte>, tab: nat, l: seq<Text>, base: nat)
    requires Table(words, mem, tab, l, base)
    requires forall a :: tab <= a <= tab + 4 * |l| && a in words ==> a in words' && words'[a] == words[a]
    ensures Table(words', mem, tab, l, base)
  {
    forall i | 0 <= i < |l| ensures Entry(words', mem, tab, l, base, i) {
      assert Entry(words, mem, tab, l, base, i);
    }
  }

  /** The value of a 32-bit int when compared as an unsigned long. */
  function Unsigned(i: int): nat { i % 0x1_0000_0000 }

  /** The index n rounds after the top ends the loop that copies down to p. */
  predicate StopsAfter(p: nat, n: nat) {
    Unsigned(TOP_OF_ARGS - 1 - n) < p
  }

  ghost predicate CopyEnds(p: nat) {
    exists n: nat :: StopsAfter(p, n)
  }

  /** The loop that copies the image onto the stack compares a signed index with the
      unsigned bprm->p: counting down from the top it stops iff p is not 0. */
  lemma CopyDownEndsIff(p: nat)
    requires p <= TOP_OF_ARGS
    ensures CopyEnds(p) <==> p > 0
  {
    if p > 0 {
      var n := TOP_OF_ARGS - p;
      assert StopsAfter(p, n);
    }
  }

  /** A call that do_execve accepts and whose copy loop does not end: a file name of one
      byte and one argument that fills the pages. */
  lemma PageFillingArgument()
    ensures var filename, argv, envp := [65 as Byte], [seq(TOP_OF_ARGS - 3, _ => 65 as Byte)], [];
            var size := |Flat(argv)| + |Flat(envp)| + |filename| + 1;
            && AreTexts(argv) && AreTexts(envp) && IsText(filename) && |argv| <= MAX_STRINGS && |envp| <= MAX_STRINGS
            && size == TOP_OF_ARGS && !CopyEnds(TOP_OF_ARGS - size)
  {
    var arg := seq(TOP_OF_ARGS - 3, _ => 65 as Byte);
    FlatOne(arg);
    CopyDownEndsIff(0);
  }
}
