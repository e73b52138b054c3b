/** Which saved logins belong to a visited host: internal/vault/match.go. */
module HostMatch {
  import opened Text
  import opened Seqs

  /** The last two labels of a host, joined again; a host without a dot is kept. */
  function Registrable(host: string): string {
    var parts := Split(host, '.');
    if |parts| < 2 then host else Join(parts[|parts| - 2..], '.')
  }

  function HostScore(visited: string, stored: string): nat {
    if visited == stored then 100
    else if HasSuffix(visited, "." + stored) then 80
    else if HasSuffix(stored, "." + visited) then 60
    else if Registrable(visited) == Registrable(stored) then 40
    else 0
  }

  // ---- scores by labels -----------------------------------------------------------------------

  function Labels(host: string): (labels: seq<string>)
    ensures |labels| >= 1
  {
    Split(host, '.')
  }

  predicate ProperSuffix<T(==)>(a: seq<T>, b: seq<T>) {
    |a| < |b| && b[|b| - |a|..] == a
  }

  function Last<T>(s: seq<T>, k: nat): seq<T>
    requires k <= |s|
  {
    s[|s| - k..]
  }

  function Min(a: nat, b: nat): nat { if a < b then a else b }

  /** What the four scores mean, in terms of label lists. */
  function LabelScore(visited: seq<string>, stored: seq<string>): nat {
    if visited == stored then 100
    else if ProperSuffix(stored, visited) then 80
    else if ProperSuffix(visited, stored) then 60
    else if |visited| >= 2 && |stored| >= 2 && Last(visited, 2) == Last(stored, 2) then 40
    else 0
  }

  lemma LabelsInjective(a: string, b: string)
    requires Labels(a) == Labels(b)
    ensures a == b
  {
    JoinSplit(a, '.');
    JoinSplit(b, '.');
  }

  /** The string suffix test sees label boundaries only. */
  lemma SubdomainByLabels(sub: string, base: string)
    ensures HasSuffix(sub, "." + base) <==> ProperSuffix(Labels(base), Labels(sub))
  {
    if HasSuffix(sub, "." + base) {
      var front := sub[..|sub| - |base| - 1];
      assert sub == front + "." + base;
      SplitConcat(front, base, '.');
    }
    if ProperSuffix(Labels(base), Labels(sub)) {
      var front := Labels(sub)[..|Labels(sub)| - |Labels(base)|];
      var s := Join(front, '.') + "." + base;
      SplitJoin(front, '.');
      SplitConcat(Join(front, '.'), base, '.');
      LabelsInjective(sub, s);
    }
  }

  lemma RegistrableByLabels(a: string, b: string)
    ensures Registrable(a) == Registrable(b) <==>
            (if |Labels(a)| < 2 || |Labels(b)| < 2 then a == b else Last(Labels(a), 2) == Last(Labels(b), 2))
  {
    forall h | |Labels(h)| >= 2 ensures Labels(Registrable(h)) == Last(Labels(h), 2) {
      SplitJoin(Last(Labels(h), 2), '.');
    }
  }

  /** The score read from the strings is the score of the label lists. */
  lemma HostScoreByLabels(visited: string, stored: string)
    ensures HostScore(visited, stored) == LabelScore(Labels(visited), Labels(stored))
  {
    SubdomainByLabels(visited, stored);
    SubdomainByLabels(stored, visited);
    RegistrableByLabels(visited, stored);
    if Labels(visited) == Labels(stored) { LabelsInjective(visited, stored); }
  }

  /** Swapping the hosts fixes 100, 40 and 0 and exchanges 80 with 60. */
  lemma HostScoreSwap(a: string, b: string)
    ensures HostScore(b, a) == match HostScore(a, b) { case 80 => 60 case 60 => 80 case n => n }
  {
    HostScoreByLabels(a, b);
    HostScoreByLabels(b, a);
  }

  /** `sub` is `base` with labels in front. */
  ghost predicate IsSubdomain(sub: string, base: string) {
    exists front: string :: sub == front + "." + base
  }

  lemma SuffixIsSubdomain(sub: string, base: string)
    ensures HasSuffix(sub, "." + base) <==> IsSubdomain(sub, base)
  {
    if HasSuffix(sub, "." + base) {
      assert sub == sub[..|sub| - |base| - 1] + "." + base;
    }
    if front: string :| sub == front + "." + base {
      assert front + "." + base == front + ("." + base);
    }
  }

  /**
   The four scores: 100 for the stored host itself, 80 on a subdomain of it, 60 on a host of which it is a subdomain,
   40 for another host with the same last two labels, and 0 for every other.
   */
  lemma ScoresMean(visited: string, stored: string)
    ensures var s := HostScore(visited, stored);
            && (s == 100 <==> visited == stored)
            && (s == 80 <==> IsSubdomain(visited, stored))
            && (s == 60 <==> IsSubdomain(stored, visited))
            && (s == 40 <==>
                && visited != stored && !IsSubdomain(visited, stored) && !IsSubdomain(stored, visited)
                && |Split(visited, '.')| >= 2 && |Split(stored, '.')| >= 2
                && Last(Split(visited, '.'), 2) == Last(Split(stored, '.'), 2))
            && (s == 0 || s == 40 || s == 60 || s == 80 || s == 100)
  {
    SuffixIsSubdomain(visited, stored);
    SuffixIsSubdomain(stored, visited);
    RegistrableByLabels(visited, stored);
  }

  /** Two hosts are related exactly when the last labels both of them have, at most two, agree. */
  lemma RelatedIffLastLabelsAgree(a: string, b: string)
    ensures HostScore(a, b) > 0 <==>
            var k := Min(2, Min(|Labels(a)|, |Labels(b)|)); Last(Labels(a), k) == Last(Labels(b), k)
  {
    HostScoreByLabels(a, b);
    LabelScorePositive(Labels(a), Labels(b));
  }

  lemma LabelScorePositive(x: seq<string>, y: seq<string>)
    requires |x| >= 1 && |y| >= 1
    ensures LabelScore(x, y) > 0 <==> var k := Min(2, Min(|x|, |y|)); Last(x, k) == Last(y, k)
  {
    if |x| == |y| {
      if |x| == 1 { assert Last(x, 1) == x && Last(y, 1) == y; }
    } else if |x| > |y| {
      SuffixLabels(y, x);
    } else {
      SuffixLabels(x, y);
    }
  }

  lemma SuffixLabels(short: seq<string>, long: seq<string>)
    requires 1 <= |short| < |long|
    ensures var k := Min(2, |short|);
            Last(long, k) == Last(short, k) <==>
            ProperSuffix(short, long) || (|short| >= 2 && Last(long, 2) == Last(short, 2))
  {
    if |short| == 1 {
      WholeIsLast(short, long);
    } else if ProperSuffix(short, long) {
      WholeIsLast(short, long);
      LastOfLast(long, |short|, 2);
    }
  }

  lemma WholeIsLast<T>(short: seq<T>, long: seq<T>)
    requires |short| < |long|
    ensures Last(short, |short|) == short
    ensures ProperSuffix(short, long) <==> Last(long, |short|) == short
  {
  }

  lemma LastOfLast<T>(s: seq<T>, m: nat, k: nat)
    requires k <= m <= |s|
    ensures Last(Last(s, m), k) == Last(s, k)
  {
  }

  predicate Related(a: string, b: string) { HostScore(a, b) > 0 }

  lemma RelatedByLastTwo(a: string, b: string)
    requires |Labels(a)| >= 2 && |Labels(b)| >= 2
    ensures Related(a, b) <==> Last(Labels(a), 2) == Last(Labels(b), 2)
  {
    RelatedIffLastLabelsAgree(a, b);
  }

  lemma OneLabelIsPlain(host: string)
    requires |Labels(host)| == 1
    ensures '.' !in host && Labels(host) == [host]
  {
    JoinSplit(host, '.');
  }

  /** The last two labels agree, or the only one that both have. */
  predicate Agree(x: seq<string>, y: seq<string>) {
    var k := Min(2, Min(|x|, |y|));
    Last(x, k) == Last(y, k)
  }

  lemma RelatedMeansAgree(a: string, b: string)
    ensures Related(a, b) <==> Agree(Labels(a), Labels(b))
  {
    RelatedIffLastLabelsAgree(a, b);
  }

  lemma EndsShrink(x: seq<string>, y: seq<string>, m: nat, k: nat)
    requires k <= m <= |x| && m <= |y| && Last(x, m) == Last(y, m)
    ensures Last(x, k) == Last(y, k)
  {
    LastOfLast(x, m, k);
    LastOfLast(y, m, k);
  }

  lemma AgreeThrough(x: seq<string>, y: seq<string>, z: seq<string>)
    requires |y| >= 2 && Agree(x, y) && Agree(y, z)
    ensures Agree(x, z)
  {
    var m, n := Min(2, |x|), Min(2, |z|);
    EndsShrink(x, y, m, Min(m, n));
    EndsShrink(y, z, n, Min(m, n));
  }

  /** Through a host with at least two labels, relatedness is transitive, whatever the outer hosts are. */
  lemma RelatedThroughTwoLabels(a: string, b: string, c: string)
    requires |Labels(b)| >= 2 && Related(a, b) && Related(b, c)
    ensures Related(a, c)
  {
    RelatedMeansAgree(a, b);
    RelatedMeansAgree(b, c);
    RelatedMeansAgree(a, c);
    AgreeThrough(Labels(a), Labels(b), Labels(c));
  }

  ghost predicate TransitiveAt(b: string) {
    forall a, c :: Related(a, b) && Related(b, c) ==> Related(a, c)
  }

  /** Relatedness is transitive through a host exactly when that host has at least two labels. */
  lemma TransitiveExactlyAtTwoLabels(b: string)
    ensures TransitiveAt(b) <==> |Labels(b)| >= 2
  {
    if |Labels(b)| >= 2 {
      forall a, c | Related(a, b) && Related(b, c) ensures Related(a, c) {
        RelatedThroughTwoLabels(a, b, c);
      }
    } else {
      OneLabelIsPlain(b);
      assert "x"[0] != "y"[0];
      OneLabelHostBreaksTransitivity("x", "y", b);
    }
  }

  /** Relatedness is reflexive and symmetric on all hosts, and transitive through hosts with two or more labels. */
  lemma RelatedIsEquivalence(a: string, b: string, c: string)
    ensures Related(a, a)
    ensures Related(a, b) <==> Related(b, a)
    ensures |Labels(b)| >= 2 && Related(a, b) && Related(b, c) ==> Related(a, c)
  {
    HostScoreSwap(a, b);
    TransitiveExactlyAtTwoLabels(b);
  }

  lemma TwoLabels(a: string, b: string)
    requires '.' !in a && '.' !in b
    ensures Labels(a + "." + b) == [a, b]
  {
    SplitWithout(a, '.');
    SplitWithout(b, '.');
    SplitConcat(a, b, '.');
  }

  /** With a one-label host in the middle, relatedness is not transitive: a.top ~ top ~ c.top, but not a.top ~ c.top. */
  lemma OneLabelHostBreaksTransitivity(a: string, c: string, top: string)
    requires a != c && '.' !in a && '.' !in c && '.' !in top
    ensures Related(a + "." + top, top) && Related(top, c + "." + top) && !Related(a + "." + top, c + "." + top)
  {
    TwoLabels(a, top);
    TwoLabels(c, top);
    SplitWithout(top, '.');
    HostScoreByLabels(a + "." + top, top);
    HostScoreByLabels(top, c + "." + top);
    HostScoreByLabels(a + "." + top, c + "." + top);
    assert [a, top][1..] == [top] && [c, top][1..] == [top];
    assert Last([a, top], 2) == [a, top] && Last([c, top], 2) == [c, top];
  }

  // ---- matching entries -----------------------------------------------------------------------

  datatype Entry = Entry(id: string, vaultId: string, path: string, kind: string, url: string)
  datatype Match = Match(entry: Entry, score: nat)

  /** The site of an entry: its url metadata, else its name when that looks like a host. */
  function EntryHost(entry: Entry, hostname: string -> string): string {
    var raw := Trim(entry.url);
    var name := Trim(entry.path);
    if raw != "" && hostname(raw) != "" then hostname(raw)
    else if (' ' in name || '/' in name || ':' in name || '@' in name) && '.' !in name then ""
    else if '.' !in name then ""
    else hostname(name)
  }

  /** The host of a URL that has one; failing that, of a name with a dot in it, whatever else is in it. */
  lemma EntryHostMeans(entry: Entry, hostname: string -> string)
    ensures EntryHost(entry, hostname)
            == if Trim(entry.url) != "" && hostname(Trim(entry.url)) != "" then hostname(Trim(entry.url))
               else if '.' in Trim(entry.path) then hostname(Trim(entry.path))
               else ""
  {
  }

  function ScoreOf(entry: Entry, host: string, hostname: string -> string): nat {
    var target := EntryHost(entry, hostname);
    if entry.kind != "login" || target == "" then 0 else HostScore(host, target)
  }

  /** The matches of a host in the order of the entries. */
  function Candidates(entries: seq<Entry>, host: string, hostname: string -> string): (ms: seq<Match>)
    ensures forall m :: m in ms <==> m.entry in entries && m.score > 0 && m.score == ScoreOf(m.entry, host, hostname)
  {
    if entries == [] then []
    else
      var rest := Candidates(entries[1..], host, hostname);
      var score := ScoreOf(entries[0], host, hostname);
      if score == 0 then rest else [Match(entries[0], score)] + rest
  }

  lemma {:induction false} CandidatesConcat(a: seq<Entry>, b: seq<Entry>, host: string, hostname: string -> string)
    ensures Candidates(a + b, host, hostname) == Candidates(a, host, hostname) + Candidates(b, host, hostname)
  {
    if a == [] {
      assert a + b == b;
    } else {
      assert (a + b)[1..] == a[1..] + b;
      CandidatesConcat(a[1..], b, host, hostname);
    }
  }

  lemma CandidatesSnoc(entries: seq<Entry>, i: nat, host: string, hostname: string -> string)
    requires i < |entries|
    ensures var score := ScoreOf(entries[i], host, hostname);
            Candidates(entries[..i + 1], host, hostname)
            == Candidates(entries[..i], host, hostname) + (if score == 0 then [] else [Match(entries[i], score)])
  {
    assert entries[..i + 1] == entries[..i] + [entries[i]];
    CandidatesConcat(entries[..i], [entries[i]], host, hostname);
    assert [entries[i]][1..] == [];
  }

  /** The comparison of the sort: higher score first, then the smaller path. */
  predicate Before(a: Match, b: Match) {
    if a.score != b.score then a.score > b.score else Less(a.entry.path, b.entry.path)
  }

  lemma BeforeIsWeakOrder(a: Match, b: Match, c: Match)
    ensures !(Before(a, b) && Before(b, a))
    ensures !Before(b, a) && !Before(c, b) ==> !Before(c, a)
  {
    var x, y, z := a.entry.path, b.entry.path, c.entry.path;
    LessTotal(x, y);
    LessTotal(y, z);
    LessTotal(x, z);
    if Less(x, y) && Less(y, z) { LessTransitive(x, y, z); }
  }

  ghost predicate Sorted(ms: seq<Match>) {
    forall i, j :: 0 <= i < j < |ms| ==> !Before(ms[j], ms[i])
  }

  function Insert(m: Match, ms: seq<Match>): (r: seq<Match>)
    ensures multiset(r) == multiset{m} + multiset(ms)
    ensures forall x :: x in r <==> x == m || x in ms
  {
    if ms == [] || !Before(ms[0], m) then
      [m] + ms
    else
      assert ms == [ms[0]] + ms[1..];
      [ms[0]] + Insert(m, ms[1..])
  }

  /** sort.SliceStable with the comparison above. */
  function StableSort(ms: seq<Match>): (r: seq<Match>)
    ensures multiset(r) == multiset(ms)
    ensures forall x :: x in r <==> x in ms
  {
    if ms == [] then []
    else
      assert ms == [ms[0]] + ms[1..];
      Insert(ms[0], StableSort(ms[1..]))
  }

  lemma {:induction false} InsertSorted(m: Match, ms: seq<Match>)
    requires Sorted(ms)
    ensures Sorted(Insert(m, ms))
  {
    var r := Insert(m, ms);
    if ms == [] || !Before(ms[0], m) {
      forall j | 0 < j < |r| ensures !Before(r[j], r[0]) {
        BeforeIsWeakOrder(m, ms[0], ms[j - 1]);
      }
    } else {
      InsertSorted(m, ms[1..]);
      forall j | 0 < j < |r| ensures !Before(r[j], r[0]) {
        assert r[j] in Insert(m, ms[1..]);
        BeforeIsWeakOrder(ms[0], m, m);
        if r[j] != m {
          var k :| 0 <= k < |ms[1..]| && ms[1..][k] == r[j];
          assert ms[k + 1] == r[j];
        }
      }
      forall i, j | 0 <= i < j < |r| ensures !Before(r[j], r[i]) {
        if i > 0 { assert r[i] == r[1..][i - 1] && r[j] == r[1..][j - 1]; }
      }
    }
  }

  lemma {:induction false} StableSortSorted(ms: seq<Match>)
    ensures Sorted(StableSort(ms))
  {
    if ms != [] {
      StableSortSorted(ms[1..]);
      InsertSorted(ms[0], StableSort(ms[1..]));
    }
  }

  lemma {:induction false} InsertFilter(m: Match, ms: seq<Match>, keep: Match -> bool)
    requires Sorted(ms)
    ensures Filter(Insert(m, ms), keep) ==
            if keep(m) then Insert(m, Filter(ms, keep)) else Filter(ms, keep)
  {
    if ms == [] || !Before(ms[0], m) {
      assert ([m] + ms)[1..] == ms;
      var kept := Filter(ms, keep);
      if kept != [] {
        FilterMember(ms, keep, kept[0]);
        var k :| 0 <= k < |ms| && ms[k] == kept[0];
        BeforeIsWeakOrder(m, ms[0], ms[k]);
      }
    } else {
      InsertFilter(m, ms[1..], keep);
      assert ([ms[0]] + Insert(m, ms[1..]))[1..] == Insert(m, ms[1..]);
      if keep(ms[0]) {
        assert ([ms[0]] + Filter(ms[1..], keep))[1..] == Filter(ms[1..], keep);
      }
    }
  }

  /** Filtering by any property before or after the stable sort gives the same list. */
  lemma {:induction false} FilterCommutesWithSort(ms: seq<Match>, keep: Match -> bool)
    ensures Filter(StableSort(ms), keep) == StableSort(Filter(ms, keep))
  {
    if ms != [] {
      FilterCommutesWithSort(ms[1..], keep);
      StableSortSorted(ms[1..]);
      InsertFilter(ms[0], StableSort(ms[1..]), keep);
      if keep(ms[0]) { assert ([ms[0]] + Filter(ms[1..], keep))[1..] == Filter(ms[1..], keep); }
    }
  }

  /** Scores never rise along the list, and among equals the paths never fall. */
  ghost predicate Ranked(ms: seq<Match>) {
    forall i, j :: 0 <= i < j < |ms| ==>
      && ms[j].score <= ms[i].score
      && (ms[j].score == ms[i].score ==> !Less(ms[j].entry.path, ms[i].entry.path))
  }

  lemma SortedIsRanked(ms: seq<Match>)
    requires Sorted(ms)
    ensures Ranked(ms)
  {
    forall i, j | 0 <= i < j < |ms|
      ensures ms[j].score <= ms[i].score
              && (ms[j].score == ms[i].score ==> !Less(ms[j].entry.path, ms[i].entry.path))
    {
      assert !Before(ms[j], ms[i]);
    }
  }

  method MatchEntries(entries: seq<Entry>, host: string, hostname: string -> string) returns (matches: seq<Match>)
    ensures matches == if host == "" then [] else StableSort(Candidates(entries, host, hostname))
    ensures Ranked(matches)
    ensures forall m :: m in matches <==>
              && host != "" && m.entry in entries && m.entry.kind == "login"
              && EntryHost(m.entry, hostname) != "" && m.score == HostScore(host, EntryHost(m.entry, hostname)) > 0
  {
    if host == "" { return []; }
    matches := [];
    for i := 0 to |entries|
      invariant matches == Candidates(entries[..i], host, hostname)
    {
      var entry := entries[i];
      CandidatesSnoc(entries, i, host, hostname);
      if entry.kind != "login" { continue; }
      var target := EntryHost(entry, hostname);
      if target == "" { continue; }
      var score := HostScore(host, target);
      if score == 0 { continue; }
      matches := matches + [Match(entry, score)];
    }
    assert entries[..|entries|] == entries;
    StableSortSorted(matches);
    matches := StableSort(matches);
    SortedIsRanked(matches);
  }

  /** Every match is a login entry of a related site, and no such entry is missing. */
  lemma MatchesAreRelatedLogins(entries: seq<Entry>, host: string, hostname: string -> string, e: Entry)
    ensures (exists m :: m in StableSort(Candidates(entries, host, hostname)) && m.entry == e)
       <==> e in entries && e.kind == "login" && EntryHost(e, hostname) != "" && Related(host, EntryHost(e, hostname))
  {
    var score := ScoreOf(e, host, hostname);
    if e in entries && score > 0 {
      assert Match(e, score) in StableSort(Candidates(entries, host, hostname));
    }
  }

  // ---- the key's scope on top -----------------------------------------------------------------

  /** CanAccessVault of an API key: an empty scope means every vault. */
  predicate CanAccessVault(scope: seq<string>, vaultId: string) {
    scope == [] || vaultId in scope
  }

  function InScope(scope: seq<string>): Match -> bool {
    (m: Match) => CanAccessVault(scope, m.entry.vaultId)
  }

  function EntryInScope(scope: seq<string>): Entry -> bool {
    (e: Entry) => CanAccessVault(scope, e.vaultId)
  }

  /** `scoped := matches[:0]` of the match endpoint: the in-scope matches move to the front in place. */
  method KeepInScope(matches: array<Match>, scope: seq<string>) returns (n: nat)
    modifies matches
    ensures n <= matches.Length
    ensures matches[..n] == Filter(old(matches[..]), InScope(scope))
  {
    n := 0;
    ghost var was := matches[..];
    for i := 0 to matches.Length
      invariant n <= i
      invariant matches[..n] == Filter(was[..i], InScope(scope))
      invariant matches[i..] == was[i..]
    {
      var m := matches[i];
      assert m == was[i] by { assert matches[i..][0] == was[i..][0]; }
      FilterSnoc(was, i, InScope(scope));
      if CanAccessVault(scope, m.entry.vaultId) {
        matches[n] := m;
        n := n + 1;
        assert matches[..n] == matches[..n - 1] + [m];
      }
      assert matches[i + 1..] == was[i + 1..] by {
        forall k | i + 1 <= k < matches.Length ensures matches[k] == was[k] {
          assert was[i..][k - i] == was[k];
        }
      }
    }
    assert was[..matches.Length] == was;
  }

  /** The match endpoint answers as if the owner had only the entries of the key's scope. */
  lemma ScopedMatchesAreMatchesOfTheScope(
      entries: seq<Entry>, scope: seq<string>, host: string, hostname: string -> string)
    ensures Filter(StableSort(Candidates(entries, host, hostname)), InScope(scope))
         == StableSort(Candidates(Filter(entries, EntryInScope(scope)), host, hostname))
  {
    FilterCommutesWithSort(Candidates(entries, host, hostname), InScope(scope));
    CandidatesFilter(entries, scope, host, hostname);
  }

  lemma {:induction false} CandidatesFilter(
      entries: seq<Entry>, scope: seq<string>, host: string, hostname: string -> string)
    ensures Filter(Candidates(entries, host, hostname), InScope(scope))
         == Candidates(Filter(entries, EntryInScope(scope)), host, hostname)
  {
    if entries != [] {
      CandidatesFilter(entries[1..], scope, host, hostname);
      var rest := Candidates(entries[1..], host, hostname);
      var score := ScoreOf(entries[0], host, hostname);
      if score > 0 { assert ([Match(entries[0], score)] + rest)[1..] == rest; }
      var kept := Filter(entries[1..], EntryInScope(scope));
      assert ([entries[0]] + kept)[1..] == kept;
    }
  }
}
