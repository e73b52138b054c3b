/** The Fisher-Yates pass of internal/password/password.go: a bijection from draws to permutations. */
module Shuffle {
  function Swap<T>(s: seq<T>, i: nat, j: nat): (r: seq<T>)
    requires i < |s| && j < |s|
    ensures |r| == |s|
  {
    s[i := s[j]][j := s[i]]
  }

  /** Draws for the positions i, i-1, ..., 1: the one for position p is at most p. */
  ghost predicate Choices(js: seq<nat>, i: nat) {
    |js| == i && forall k :: 0 <= k < i ==> js[k] <= i - k
  }

  /** The pass from position `i` down: each step swaps its position with the drawn one. */
  function ShuffledFrom<T>(s: seq<T>, i: nat, js: seq<nat>): (r: seq<T>)
    requires i < |s| && Choices(js, i)
    ensures |r| == |s|
    decreases i
  {
    if i == 0 then s else ShuffledFrom(Swap(s, i, js[0]), i - 1, js[1..])
  }

  /** The whole pass; the last position draws first. */
  function Shuffled<T>(s: seq<T>, js: seq<nat>): (r: seq<T>)
    requires Choices(js, if s == [] then 0 else |s| - 1)
    ensures |r| == |s|
  {
    if s == [] then s else ShuffledFrom(s, |s| - 1, js)
  }

  // ---- nothing is lost ------------------------------------------------------------------------

  lemma SwapMultiset<T>(s: seq<T>, i: nat, j: nat)
    requires i < |s| && j < |s|
    ensures multiset(Swap(s, i, j)) == multiset(s)
  {
  }

  lemma {:induction false} ShuffledFromMultiset<T>(s: seq<T>, i: nat, js: seq<nat>)
    requires i < |s| && Choices(js, i)
    ensures multiset(ShuffledFrom(s, i, js)) == multiset(s)
    decreases i
  {
    if i > 0 {
      SwapMultiset(s, i, js[0]);
      ShuffledFromMultiset(Swap(s, i, js[0]), i - 1, js[1..]);
    }
  }

  /** Positions above `i` are not touched. */
  lemma {:induction false} ShuffledFromKeepsRest<T>(s: seq<T>, i: nat, js: seq<nat>, k: nat)
    requires i < k < |s| && Choices(js, i)
    ensures ShuffledFrom(s, i, js)[k] == s[k]
    decreases i
  {
    if i > 0 { ShuffledFromKeepsRest(Swap(s, i, js[0]), i - 1, js[1..], k); }
  }

  lemma ShuffledMultiset<T>(s: seq<T>, js: seq<nat>)
    requires Choices(js, if s == [] then 0 else |s| - 1)
    ensures multiset(Shuffled(s, js)) == multiset(s)
  {
    if s != [] { ShuffledFromMultiset(s, |s| - 1, js); }
  }

  // ---- one-to-one and onto --------------------------------------------------------------------

  ghost predicate Distinct<T>(s: seq<T>) {
    forall i, j :: 0 <= i < j < |s| ==> s[i] != s[j]
  }

  /** The first draw decides for good what stands at position `i`. */
  lemma FirstDrawShows<T>(s: seq<T>, i: nat, js: seq<nat>)
    requires 0 < i < |s| && Choices(js, i)
    ensures ShuffledFrom(s, i, js)[i] == s[js[0]]
  {
    var t := Swap(s, i, js[0]);
    ShuffledFromKeepsRest(t, i - 1, js[1..], i);
  }

  lemma {:induction false} ShuffledFromInjective<T>(s: seq<T>, i: nat, js: seq<nat>, ks: seq<nat>)
    requires Distinct(s) && i < |s| && Choices(js, i) && Choices(ks, i)
    requires ShuffledFrom(s, i, js) == ShuffledFrom(s, i, ks)
    ensures js == ks
    decreases i
  {
    if i > 0 {
      FirstDrawShows(s, i, js);
      FirstDrawShows(s, i, ks);
      assert js[0] == ks[0];
      SwapDistinct(s, i, js[0]);
      ShuffledFromInjective(Swap(s, i, js[0]), i - 1, js[1..], ks[1..]);
      assert js == [js[0]] + js[1..] && ks == [ks[0]] + ks[1..];
    }
  }

  lemma SwapDistinct<T>(s: seq<T>, i: nat, j: nat)
    requires Distinct(s) && i < |s| && j < |s|
    ensures Distinct(Swap(s, i, j))
  {
  }

  /** Draws that turn `s` into a given rearrangement of its first `i+1` elements. */
  lemma {:induction false} ShuffledFromOnto<T>(s: seq<T>, i: nat, target: seq<T>) returns (js: seq<nat>)
    requires i < |s| == |target| && target[i + 1..] == s[i + 1..] && multiset(target[..i + 1]) == multiset(s[..i + 1])
    ensures Choices(js, i) && ShuffledFrom(s, i, js) == target
    decreases i
  {
    if i == 0 {
      js := [];
      OntoBase(s, target);
    } else {
      var j := Locate(s[..i + 1], target[..i + 1], i);
      OntoStep(s, i, j, target);
      var rest := ShuffledFromOnto(Swap(s, i, j), i - 1, target);
      js := [j] + rest;
      assert js[1..] == rest;
    }
  }

  lemma OntoBase<T>(s: seq<T>, target: seq<T>)
    requires 0 < |s| == |target| && target[1..] == s[1..] && multiset(target[..1]) == multiset(s[..1])
    ensures s == target
  {
    assert s[..1] == [s[0]] && target[..1] == [target[0]];
    assert target[0] in multiset(s[..1]);
    assert s == [s[0]] + s[1..] && target == [target[0]] + target[1..];
  }

  lemma Locate<T>(s: seq<T>, target: seq<T>, i: nat) returns (j: nat)
    requires multiset(s) == multiset(target) && i < |target|
    ensures j < |s| && s[j] == target[i]
  {
    assert target[i] in multiset(target);
    assert target[i] in s;
    j :| j < |s| && s[j] == target[i];
  }

  lemma OntoStep<T>(s: seq<T>, i: nat, j: nat, target: seq<T>)
    requires j <= i < |s| == |target| && s[j] == target[i]
    requires target[i + 1..] == s[i + 1..] && multiset(target[..i + 1]) == multiset(s[..i + 1])
    ensures target[i..] == Swap(s, i, j)[i..]
    ensures multiset(target[..i]) == multiset(Swap(s, i, j)[..i])
  {
    var t := Swap(s, i, j);
    SwapPrefix(s, i, j);
    SplitAt(t, i);
    SplitAt(target, i);
    SameFront(t[..i], target[..i], target[i]);
    assert t[i + 1..] == s[i + 1..];
  }

  lemma SplitAt<T>(s: seq<T>, i: nat)
    requires i < |s|
    ensures s[..i + 1] == s[..i] + [s[i]]
    ensures s[i..] == [s[i]] + s[i + 1..]
  {
  }

  lemma SwapPrefix<T>(s: seq<T>, i: nat, j: nat)
    requires j <= i < |s|
    ensures multiset(Swap(s, i, j)[..i + 1]) == multiset(s[..i + 1])
  {
    SwapMultiset(s[..i + 1], i, j);
    assert Swap(s, i, j)[..i + 1] == Swap(s[..i + 1], i, j);
  }

  lemma SameFront<T>(a: seq<T>, b: seq<T>, x: T)
    ensures multiset(a + [x]) == multiset(b + [x]) ==> multiset(a) == multiset(b)
  {
    DropLast(a + [x]);
    DropLast(b + [x]);
    assert (a + [x])[..|a|] == a && (b + [x])[..|b|] == b;
    if multiset(a + [x]) == multiset(b + [x]) {
      assert |multiset(a + [x])| == |a| + 1 && |multiset(b + [x])| == |b| + 1;
    }
  }

  lemma DropLast<T>(s: seq<T>)
    requires s != []
    ensures multiset(s[..|s| - 1]) == multiset(s) - multiset{s[|s| - 1]}
  {
    assert s == s[..|s| - 1] + [s[|s| - 1]];
  }

  ghost predicate Permutation(p: seq<nat>, n: nat) {
    |p| == n && Distinct(p) && forall k :: 0 <= k < n ==> p[k] < n
  }

  function Identity(n: nat): (p: seq<nat>)
    ensures |p| == n && forall k :: 0 <= k < n ==> p[k] == k
  {
    seq(n, k => k)
  }

  function Without<T>(s: seq<T>, k: nat): (r: seq<T>)
    requires k < |s|
    ensures |r| == |s| - 1
    ensures forall a :: 0 <= a < |r| ==> r[a] == s[if a < k then a else a + 1]
  {
    s[..k] + s[k + 1..]
  }

  lemma WithoutMultiset<T>(s: seq<T>, k: nat)
    requires k < |s|
    ensures multiset(s) == multiset(Without(s, k)) + multiset{s[k]}
  {
    assert s == s[..k] + [s[k]] + s[k + 1..];
  }

  lemma IdentityMultiset(n: nat)
    requires n > 0
    ensures multiset(Identity(n)) == multiset(Identity(n - 1)) + multiset([n - 1])
  {
    assert Identity(n) == Identity(n - 1) + [n - 1];
  }

  /** Every list of n distinct numbers below n holds each of them once. */
  lemma {:induction false} PermutationMultiset(p: seq<nat>, n: nat)
    requires Permutation(p, n)
    ensures multiset(p) == multiset(Identity(n))
  {
    if n > 0 {
      var k := FindTop(p, n);
      WithoutMultiset(p, k);
      PermutationMultiset(Without(p, k), n - 1);
      IdentityMultiset(n);
    } else {
      assert p == Identity(0);
    }
  }

  /** n distinct numbers below n include n-1. */
  lemma FindTop(p: seq<nat>, n: nat) returns (k: nat)
    requires n > 0 && Permutation(p, n)
    ensures k < n && p[k] == n - 1
  {
    if exists i :: 0 <= i < n && p[i] == n - 1 {
      k :| 0 <= k < n && p[k] == n - 1;
    } else {
      TooManyDistinct(p, n - 1);
      assert false;
    }
  }

  lemma {:induction false} TooManyDistinct(p: seq<nat>, n: nat)
    requires Distinct(p) && |p| > n && forall k :: 0 <= k < |p| ==> p[k] < n
    ensures false
    decreases n
  {
    var first := p[0];
    assert first < n;
    if n > 0 {
      if exists i :: 0 <= i < |p| && p[i] == n - 1 {
        var i :| 0 <= i < |p| && p[i] == n - 1;
        TooManyDistinct(Without(p, i), n - 1);
      } else {
        TooManyDistinct(p, n - 1);
      }
    }
  }

  lemma SamePermutation(p: seq<nat>, n: nat)
    requires multiset(p) == multiset(Identity(n))
    ensures Permutation(p, n)
  {
    assert |multiset(p)| == |p| && |multiset(Identity(n))| == n;
    forall k | 0 <= k < |p| ensures p[k] < n {
      assert p[k] in multiset(p);
      assert p[k] in Identity(n);
    }
    forall i, j | 0 <= i < j < |p| ensures p[i] != p[j] {
      if p[i] == p[j] {
        TwiceInMultiset(p, i, j);
        OnceInIdentity(n, p[i]);
      }
    }
  }

  lemma TwiceInMultiset(p: seq<nat>, i: nat, j: nat)
    requires i < j < |p| && p[i] == p[j]
    ensures multiset(p)[p[i]] >= 2
  {
    assert p == p[..i] + [p[i]] + p[i + 1..j] + [p[j]] + p[j + 1..];
  }

  lemma {:induction false} OnceInIdentity(n: nat, x: nat)
    ensures multiset(Identity(n))[x] == if x < n then 1 else 0
  {
    if n > 0 {
      OnceInIdentity(n - 1, x);
      IdentityMultiset(n);
    } else {
      assert Identity(n) == [];
    }
  }

  /** Each permutation of n positions comes from exactly one sequence of draws, and draws give nothing else. */
  lemma ShuffleIsBijection(n: nat, p: seq<nat>)
    requires n > 0
    ensures Permutation(p, n) <==> exists js :: Choices(js, n - 1) && Shuffled(Identity(n), js) == p
    ensures forall js, ks ::
              Choices(js, n - 1) && Choices(ks, n - 1) && Shuffled(Identity(n), js) == Shuffled(Identity(n), ks)
              ==> js == ks
  {
    var id := Identity(n);
    if Permutation(p, n) {
      PermutationMultiset(p, n);
      assert id[..n] == id && p[..n] == p;
      var js := ShuffledFromOnto(id, n - 1, p);
      assert Shuffled(id, js) == p;
    }
    forall js | Choices(js, n - 1) && Shuffled(id, js) == p ensures Permutation(p, n) {
      ShuffledFromMultiset(id, n - 1, js);
      SamePermutation(p, n);
    }
    forall js, ks | Choices(js, n - 1) && Choices(ks, n - 1) && Shuffled(id, js) == Shuffled(id, ks) ensures js == ks {
      ShuffledFromInjective(id, n - 1, js, ks);
    }
  }

  ghost predicate Within(p: seq<nat>, n: nat) {
    forall k :: 0 <= k < |p| ==> p[k] < n
  }

  function Pick<T>(values: seq<T>, p: seq<nat>): (s: seq<T>)
    requires Within(p, |values|)
    ensures |s| == |p| && forall k :: 0 <= k < |p| ==> s[k] == values[p[k]]
  {
    seq(|p|, k requires 0 <= k < |p| => values[p[k]])
  }

  /** The pass moves positions, whatever stands there: values follow the permutation of the draws. */
  lemma {:induction false} ShuffledFromMovesPositions<T>(values: seq<T>, p: seq<nat>, i: nat, js: seq<nat>)
    requires i < |p| && Choices(js, i) && Within(p, |values|)
    ensures Within(ShuffledFrom(p, i, js), |values|)
    ensures ShuffledFrom(Pick(values, p), i, js) == Pick(values, ShuffledFrom(p, i, js))
    decreases i
  {
    if i > 0 {
      var q := Swap(p, i, js[0]);
      assert Swap(Pick(values, p), i, js[0]) == Pick(values, q);
      ShuffledFromMovesPositions(values, q, i - 1, js[1..]);
    }
  }

  /** Shuffling values applies the permutation that the same draws give on positions. */
  lemma ShuffledAppliesPermutation<T>(values: seq<T>, js: seq<nat>)
    requires values != [] && Choices(js, |values| - 1)
    ensures Within(Shuffled(Identity(|values|), js), |values|)
    ensures Shuffled(values, js) == Pick(values, Shuffled(Identity(|values|), js))
  {
    var id := Identity(|values|);
    assert Pick(values, id) == values;
    ShuffledFromMovesPositions(values, id, |values| - 1, js);
  }
}
