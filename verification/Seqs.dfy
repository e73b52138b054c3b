/** Sequence helpers shared by the models. */
module Seqs {
  function Front<T>(s: seq<T>): seq<T>
    requires s != []
  {
    s[..|s| - 1]
  }

  function Last<T>(s: seq<T>): T
    requires s != []
  {
    s[|s| - 1]
  }

  function Filter<T(!new)>(s: seq<T>, keep: T -> bool): (r: seq<T>)
    ensures |r| <= |s|
  {
    if s == [] then []
    else if keep(s[0]) then [s[0]] + Filter(s[1..], keep)
    else Filter(s[1..], keep)
  }

  lemma {:induction false} FilterMember<T(!new)>(s: seq<T>, keep: T -> bool, x: T)
    ensures x in Filter(s, keep) <==> x in s && keep(x)
  {
    if s != [] { FilterMember(s[1..], keep, x); }
  }

  lemma {:induction false} FilterConcat<T(!new)>(a: seq<T>, b: seq<T>, keep: T -> bool)
    ensures Filter(a + b, keep) == Filter(a, keep) + Filter(b, keep)
  {
    if a == [] {
      assert a + b == b;
    } else {
      assert (a + b)[1..] == a[1..] + b;
      FilterConcat(a[1..], b, keep);
    }
  }

  /** Taking one more element extends the filtered prefix by at most that element. */
  lemma FilterSnoc<T(!new)>(s: seq<T>, n: nat, keep: T -> bool)
    requires n < |s|
    ensures Filter(s[..n + 1], keep) == Filter(s[..n], keep) + (if keep(s[n]) then [s[n]] else [])
  {
    assert s[..n + 1] == s[..n] + [s[n]];
    FilterConcat(s[..n], [s[n]], keep);
  }

  /** Dropping elements that `later` rejects anyway changes nothing. */
  lemma {:induction false} FilterRefine<T(!new)>(s: seq<T>, earlier: T -> bool, later: T -> bool)
    requires forall x :: x in s && later(x) ==> earlier(x)
    ensures Filter(Filter(s, earlier), later) == Filter(s, later)
  {
    if s != [] {
      FilterRefine(s[1..], earlier, later);
      var rest := Filter(s[1..], earlier);
      if earlier(s[0]) { assert ([s[0]] + rest)[1..] == rest; }
    }
  }

  lemma {:induction false} FilterSame<T(!new)>(s: seq<T>, p: T -> bool, q: T -> bool)
    requires forall x :: x in s ==> p(x) == q(x)
    ensures Filter(s, p) == Filter(s, q)
  {
    if s != [] { FilterSame(s[1..], p, q); }
  }
}
