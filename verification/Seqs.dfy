/** Filtering sequences. */
module Seqs {

  /** The elements of s that satisfy f, in order. */
  function Filter<T>(s: seq<T>, f: T -> bool): (r: seq<T>) {
    if s == [] then []
    else if f(s[0]) then [s[0]] + Filter(s[1..], f)
    else Filter(s[1..], f)
  }

  lemma {:induction false} FilterMember<T>(s: seq<T>, f: T -> bool, x: T)
    ensures x in Filter(s, f) <==> x in s && f(x)
  {
    if s != [] {
      FilterMember(s[1..], f, x);
    }
  }

  lemma {:induction false} FilterConcat<T>(a: seq<T>, b: seq<T>, f: T -> bool)
    ensures Filter(a + b, f) == Filter(a, f) + Filter(b, f)
  {
    if a == [] {
      assert a + b == b;
    } else {
      FilterConcat(a[1..], b, f);
      assert (a + b)[1..] == a[1..] + b;
    }
  }

  /** Dropping an element that does not pass changes nothing. */
  lemma FilterRemove<T>(s: seq<T>, i: nat, f: T -> bool)
    requires i < |s| && !f(s[i])
    ensures Filter(s[..i] + s[i+1..], f) == Filter(s, f)
  {
    assert s == s[..i] + ([s[i]] + s[i+1..]);
    FilterConcat(s[..i], s[i+1..], f);
    FilterConcat(s[..i], [s[i]] + s[i+1..], f);
    FilterConcat([s[i]], s[i+1..], f);
  }

  lemma {:induction false} FilterAll<T>(s: seq<T>, f: T -> bool)
    requires forall i :: 0 <= i < |s| ==> f(s[i])
    ensures Filter(s, f) == s
  {
    if s != [] {
      FilterAll(s[1..], f);
      assert s == [s[0]] + s[1..];
    }
  }

  /** Where the k-th element of the filtered sequence comes from. */
  ghost function Source<T>(s: seq<T>, f: T -> bool, k: nat): (i: nat)
    requires k < |Filter(s, f)|
    ensures i < |s| && s[i] == Filter(s, f)[k] && f(s[i])
  {
    if f(s[0]) then
      if k == 0 then 0 else 1 + Source(s[1..], f, k - 1)
    else 1 + Source(s[1..], f, k)
  }

  /** Filtering keeps the order. */
  lemma {:induction false} SourceOrder<T>(s: seq<T>, f: T -> bool, j: nat, k: nat)
    requires j < k < |Filter(s, f)|
    ensures Source(s, f, j) < Source(s, f, k)
  {
    if f(s[0]) {
      if j > 0 { SourceOrder(s[1..], f, j - 1, k - 1); }
    } else {
      SourceOrder(s[1..], f, j, k);
    }
  }

  lemma {:induction false} FilterTwice<T>(s: seq<T>, f: T -> bool, g: T -> bool, h: T -> bool)
    requires forall x :: x in s ==> (h(x) <==> f(x) && g(x))
    ensures Filter(Filter(s, f), g) == Filter(s, h)
  {
    if s != [] {
      FilterTwice(s[1..], f, g, h);
    }
  }
}
