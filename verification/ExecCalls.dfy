/** copy_strings, remove_arg_zero, the copy onto the stack and create_flat_tables
    as they run. */
module ExecCalls {
  import opened Bytes
  import opened ExecImage

  class Binprm {
    var page: Pages
    var p: nat
    var argc: nat
    var envc: nat

    ghost predicate Valid()
      reads this
    {
      PagesOk(page) && p <= TOP_OF_ARGS && forall a: nat :: p <= a < TOP_OF_ARGS ==> a / PAGE_SIZE in page
    }

    /** Everything between p and the top. */
    ghost function Image(): seq<Byte>
      requires Valid()
      reads this
    {
      Region(page, p, TOP_OF_ARGS)
    }

    constructor ()
      ensures Valid() && Image() == [] && p == TOP_OF_ARGS && argc == 0 && envc == 0
    {
      page, p, argc, envc := map[], TOP_OF_ARGS, 0, 0;
    }

    /** One round of copy_strings' inner loop: a piece within one page, which is
        allocated (with contents `junk`) and cleared around the piece if need be. */
    method CopyPiece(pos: nat, piece: seq<Byte>, junk: nat -> Byte)
      requires PagesOk(page) && piece != [] && pos % PAGE_SIZE + |piece| <= PAGE_SIZE
      modifies this`page
      ensures Stored(old(page), page, pos, piece)
    {
      var offset, i := pos % PAGE_SIZE, pos / PAGE_SIZE;
      var n := |piece|;
      var k := if i in page then page[i] else seq<Byte>(PAGE_SIZE, junk);
      if i !in page {
        if offset > 0 { k := seq<Byte>(offset, _ => 0) + k[offset..]; }
        if PAGE_SIZE - offset > n { k := k[..offset + n] + seq<Byte>(PAGE_SIZE - offset - n, _ => 0); }
      }
      k := k[..offset] + piece + k[offset + n..];
      StorePiece(page, page[i := k], pos, piece, k);
      page := page[i := k];
    }

    /** One string of copy_strings, with its NUL, in pieces up to the page ends. */
    method CopyString(s: Text, junk: nat -> Byte) returns (ok: bool)
      requires Valid()
      modifies this`page, this`p
      ensures Valid() && (ok <==> |s| + 1 <= old(p))
      ensures if ok then p == old(p) - |s| - 1 && Image() == s + [0] + old(Image()) else p == old(p) && page == old(page)
    {
      hide Stored;
      var len := |s| + 1;
      if p < len { return false; }
      var str := s + [0];
      var start := p - len;
      var done := 0;
      assert str[..0] == [];
      StoredNothing(page, start);
      while done < len
        invariant 0 <= done <= len && p == old(p) && Stored(old(page), page, start, str[..done])
      {
        var bytes := PAGE_SIZE - (start + done) % PAGE_SIZE;
        if bytes > len - done { bytes := len - done; }
        ghost var before := page;
        StoredPages(old(page), page, start, str[..done]);
        CopyPiece(start + done, str[done..done + bytes], junk);
        StoredTwice(old(page), before, page, start, str[..done], str[done..done + bytes]);
        assert str[..done] + str[done..done + bytes] == str[..done + bytes];
        done := done + bytes;
      }
      assert str[..len] == str;
      StoredPages(old(page), page, start, str);
      RegionStored(old(page), page, start, str, TOP_OF_ARGS);
      p := start;
      ok := true;
    }

    /** copy_strings: from the last string to the first. */
    method CopyStrings(l: seq<Text>, junk: nat -> Byte) returns (ok: bool)
      requires Valid()
      modifies this`page, this`p
      ensures Valid() && (ok <==> |Flat(l)| <= old(p))
      ensures ok ==> p == old(p) - |Flat(l)| && Image() == Flat(l) + old(Image())
    {
      var i := |l|;
      assert l[i..] == [];
      while i > 0
        invariant 0 <= i <= |l| && Valid() && p == old(p) - |Flat(l[i..])| && Image() == Flat(l[i..]) + old(Image())
      {
        i := i - 1;
        FlatPush(l, i, old(Image()));
        var fits := CopyString(l[i], junk);
        if !fits { return false; }
      }
      assert l[0..] == l;
      ok := true;
    }

    /** do_execve: the file name at the top, the environment below it, the
        arguments below that. */
    method DoExecve(filename: Text, argv: seq<Text>, envp: seq<Text>, junk: nat -> Byte) returns (ok: bool)
      requires Valid() && p == TOP_OF_ARGS
      modifies this
      ensures Valid()
      ensures ok <==> |argv| <= MAX_STRINGS && |envp| <= MAX_STRINGS && |Flat(argv)| + |Flat(envp)| + |filename| + 1 <= TOP_OF_ARGS
      ensures ok ==> Image() == Flat(argv) + Flat(envp) + Flat([filename]) && argc == |argv| && envc == |envp|
    {
      argc, envc := |argv|, |envp|;
      if argc > MAX_STRINGS || envc > MAX_STRINGS { return false; }
      FlatOne(filename);
      ok := CopyStrings([filename], junk);
      if !ok { return; }
      ok := CopyStrings(envp, junk);
      if !ok { return; }
      ok := CopyStrings(argv, junk);
      assert ok ==> Image() == Flat(argv) + (Flat(envp) + (Flat([filename]) + []));
    }

    /** remove_arg_zero: step over the first string, page by page. */
    method RemoveArgZero()
      requires Valid() && (argc > 0 ==> NulAt(Image(), 0) < |Image()|)
      modifies this`p, this`argc
      ensures Valid() && argc == if old(argc) > 0 then old(argc) - 1 else 0
      ensures Image() == if old(argc) > 0 then old(Image())[NulAt(old(Image()), 0) + 1..] else old(Image())
    {
      if argc > 0 {
        hide Region, NulAt;
        ghost var n := NulAt(Image(), 0);
        var start := p;
        var offset, kaddr := p % PAGE_SIZE, page[p / PAGE_SIZE];
        while true
          invariant argc == old(argc) && start <= p <= start + n && offset == p % PAGE_SIZE
                    && p / PAGE_SIZE in page && kaddr == page[p / PAGE_SIZE]
          decreases start + n - p
        {
          ScanByte(page, start, p, TOP_OF_ARGS);
          PageStep(p);
          var c := kaddr[offset];
          p, offset := p + 1, offset + 1;
          if c == 0 { break; }
          if offset == PAGE_SIZE {
            offset := 0;
            kaddr := page[p / PAGE_SIZE];
          }
        }
        RegionFrom(page, start, p, TOP_OF_ARGS);
        argc := argc - 1;
      }
    }
  }

  /** What the copy loop reads at index i. */
  lemma ImageByte(b: Binprm, i: nat)
    requires b.Valid() && b.p <= i < TOP_OF_ARGS
    ensures i / PAGE_SIZE in b.page && |b.page[i / PAGE_SIZE]| == PAGE_SIZE && b.Image()[i - b.p] == b.page[i / PAGE_SIZE][i % PAGE_SIZE]
  {
    assert b.Image()[i - b.p] == At(b.page, i);
  }

  /** The memory of the new program: its bytes, and the words put on its stack. */
  class Stack {
    var mem: map<nat, Byte>
    var words: map<nat, nat>

    constructor ()
      ensures mem == map[] && words == map[]
    {
      mem, words := map[], map[];
    }

    /** load_flat_binary: copy the image down from `top`, last byte first. When all of it is
        there, does the loop end, or does it go on below the image? */
    method CopyImage(b: Binprm, top: nat) returns (q: nat, ended: bool)
      requires b.Valid() && TOP_OF_ARGS - b.p <= top
      modifies this
      ensures q == top - |b.Image()| && Holds(mem, q, b.Image()) && words == old(words)
      ensures ended <==> b.p > 0
      ensures ended <==> CopyEnds(b.p)
    {
      hide Holds;
      ghost var image := b.Image();
      q := top;
      NothingHeld(mem, q, image);
      var i: int := TOP_OF_ARGS - 1;
      while i >= 0 && Unsigned(i) >= b.p
        invariant b.p - 1 <= i < TOP_OF_ARGS && q == top - (TOP_OF_ARGS - 1 - i) && words == old(words)
        invariant Holds(mem, q, image[i + 1 - b.p..])
        decreases i
      {
        ImageByte(b, i);
        HoldsPush(mem, q, image, i - b.p);
        q := q - 1;
        mem := mem[q := b.page[i / PAGE_SIZE][i % PAGE_SIZE]];
        i := i - 1;
      }
      assert image[0..] == image;
      ended := Unsigned(i) < b.p;
      CopyDownEndsIff(b.p);
    }

    /** Step behind the next NUL. */
    method SkipString(p: nat, ghost s: Text) returns (q: nat)
      requires IsText(s) && Holds(mem, p, s + [0])
      ensures q == p + |s| + 1
    {
      q := p;
      while true
        invariant p <= q <= p + |s|
        decreases p + |s| - q
      {
        assert mem[q] == (s + [0])[q - p];
        var dummy := mem[q];
        q := q + 1;
        if dummy == 0 { break; }
      }
    }

    /** One of the two loops of create_flat_tables. */
    method FillTable(n: nat, p: nat, tab: nat, ghost l: seq<Text>) returns (q: nat)
      requires n == |l| && AreTexts(l) && Holds(mem, p, Flat(l))
      modifies this`words
      ensures q == p + |Flat(l)| && Table(words, mem, tab, l, p)
      ensures forall a :: a < tab || a > tab + 4 * n ==> (a in words <==> a in old(words)) && (a in words ==> words[a] == old(words)[a])
    {
      hide Holds;
      q := p;
      var i := 0;
      assert l[..0] == [];
      while i < n
        invariant 0 <= i <= n && q == p + Offset(l, i)
        invariant forall k :: 0 <= k < i ==> Entry(words, mem, tab, l, p, k)
        invariant forall a :: a < tab || a > tab + 4 * n ==>
            (a in words <==> a in old(words)) && (a in words ==> words[a] == old(words)[a])
      {
        ghost var before := words;
        words := words[tab + 4 * i := q];
        HoldsString(mem, p, l, i);
        forall k | 0 <= k < i ensures Entry(words, mem, tab, l, p, k) { assert Entry(before, mem, tab, l, p, k); }
        assert Entry(words, mem, tab, l, p, i);
        OffsetNext(l, i);
        q := SkipString(q, l[i]);
        i := i + 1;
      }
      assert l[..n] == l;
      ghost var before := words;
      words := words[tab + 4 * n := 0];
      forall k | 0 <= k < n ensures Entry(words, mem, tab, l, p, k) { assert Entry(before, mem, tab, l, p, k); }
    }

    /** create_flat_tables. `rest` is what lies behind the environment. */
    method CreateFlatTables(pp: nat, argc: nat, envc: nat, ghost argv: seq<Text>, ghost envp: seq<Text>, ghost rest: seq<Byte>)
      returns (sp: nat)
      requires argc == |argv| && envc == |envp| && AreTexts(argv) && AreTexts(envp)
      requires Holds(mem, pp, Flat(argv) + Flat(envp) + rest) && pp >= 4 * (argc + envc) + 23
      modifies this`words
      ensures var at, et := sp + 12, sp + 12 + 4 * (argc + 1);
              && Table(words, mem, at, argv, pp) && Table(words, mem, et, envp, pp + |Flat(argv)|)
              && et + 4 * (envc + 1) == pp - pp % 4
              && sp in words && words[sp] == argc && sp + 4 in words && words[sp + 4] == at && sp + 8 in words && words[sp + 8] == et
    {
      hide Flat, Holds, Table;
      HoldsBoth(mem, pp, Flat(argv), Flat(envp), rest);
      var et := pp - pp % 4 - 4 * (envc + 1);
      var at := et - 4 * (argc + 1);
      words := words[at - 4 := et][at - 8 := at][at - 12 := argc];
      sp := at - 12;
      var q := FillTable(argc, pp, at, argv);
      ghost var before := words;
      q := FillTable(envc, q, et, envp);
      TableKept(before, words, mem, at, argv, pp);
    }

    /** The argument part of load_flat_binary. `room` is the stack size that the
        program's header asks for and `brk` the end of its data. Unless the copy loop
        ends, nothing comes after it. */
    method LoadArguments(b: Binprm, brk: nat, room: nat, ghost argv: seq<Text>, ghost envp: seq<Text>, ghost rest: seq<Byte>)
      returns (sp: nat, pp: nat, ended: bool)
      requires b.Valid() && b.argc == |argv| && b.envc == |envp| && AreTexts(argv) && AreTexts(envp)
      requires b.Image() == Flat(argv) + Flat(envp) + rest && brk + room >= 19
      modifies this
      ensures ended <==> b.p > 0
      ensures ended <==> CopyEnds(b.p)
      ensures ended ==> Table(words, mem, sp + 12, argv, pp)
      ensures ended ==> Table(words, mem, sp + 12 + 4 * (b.argc + 1), envp, pp + |Flat(argv)|)
      ensures ended ==> sp + 12 + 4 * (b.argc + 1) + 4 * (b.envc + 1) <= pp
      ensures ended ==> sp in words && words[sp] == b.argc && brk + room - 19 <= sp
    {
      var stack := (TOP_OF_ARGS - b.p) + 4 * (b.argc + 1) + 4 * (b.envc + 1) + room;
      var top := (brk + stack + 3) / 4 * 4 - 4;
      sp := 0;
      pp, ended := CopyImage(b, top);
      if ended { sp := CreateFlatTables(pp, b.argc, b.envc, argv, envp, rest); }
    }
  }

  /** From execve to the new stack. The call is accepted when the strings fit; of the
      accepted calls the copy loop ends for those that leave at least one byte; and then
      the program finds its arguments and environment in the tables, string by string. */
  method Exec(filename: Text, argv: seq<Text>, envp: seq<Text>, brk: nat, room: nat, junk: nat -> Byte)
    returns (ok: bool, ended: bool, st: Stack, sp: nat, pp: nat)
    requires AreTexts(argv) && AreTexts(envp) && brk + room >= 19
    ensures ok <==> |argv| <= MAX_STRINGS && |envp| <= MAX_STRINGS && |Flat(argv)| + |Flat(envp)| + |filename| + 1 <= TOP_OF_ARGS
    ensures ended <==> ok && |Flat(argv)| + |Flat(envp)| + |filename| + 1 < TOP_OF_ARGS
    ensures ok ==> (ended <==> CopyEnds(TOP_OF_ARGS - (|Flat(argv)| + |Flat(envp)| + |filename| + 1)))
    ensures ended ==>
      && sp in st.words && st.words[sp] == |argv|
      && Table(st.words, st.mem, sp + 12, argv, pp)
      && Table(st.words, st.mem, sp + 12 + 4 * (|argv| + 1), envp, pp + |Flat(argv)|)
  {
    FlatOne(filename);
    hide Flat, Table;
    var b := new Binprm();
    st := new Stack();
    sp, pp, ended := 0, 0, false;
    ok := b.DoExecve(filename, argv, envp, junk);
    if ok {
      ghost var image := b.Image();
      assert |image| == TOP_OF_ARGS - b.p;
      sp, pp, ended := st.LoadArguments(b, brk, room, argv, envp, Flat([filename]));
    }
  }
}
