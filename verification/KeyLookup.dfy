/** API keys: how they are written, and how a bearer token finds its key (internal/apikeys/apikeys.go). */
module KeyLookup {
  import opened Text
  import opened Seqs
  import opened Bytes
  import L = Limiter

  const DEFAULT_RPM := 60

  datatype KeyRow = KeyRow(
    id: string, ownerId: string, name: string, prefix: Bytes, hash: string, permissions: set<string>,
    allowedIps: seq<string>, scope: seq<string>, rpm: int, active: bool, expiresAt: Option<int>,
    lastUsedAt: Option<int>)

  /** SHA-256 of a token, and the address filter, are library code. */
  datatype Library = Library(sha256: string -> string, ipAllowed: (string, seq<string>) -> bool)

  datatype Request = Request(token: string, permission: string, ip: string, now: int)
  datatype Status = Ok | Unauthorized | Forbidden | TooManyRequests

  /** Lengths and prefixes count the bytes of the UTF-8 text; a cut may fall inside a character. */
  function ExtractPrefix(token: string): Bytes {
    var t := Utf8(Trim(token));
    if |t| < 8 then [] else if |t| < 16 then t else t[..16]
  }

  // ---- writing keys ---------------------------------------------------------------------------

  /** What Create stores for a plaintext token. */
  ghost predicate WrittenFor(lib: Library, row: KeyRow, plaintext: string) {
    Trimmed(plaintext) && |Utf8(plaintext)| >= 8 && row.hash == lib.sha256(plaintext)
      && row.prefix == ExtractPrefix(plaintext)
  }

  /** Row i was written for token i. */
  ghost predicate AllWritten(lib: Library, rows: seq<KeyRow>, tokens: seq<string>) {
    |tokens| == |rows| && forall i :: 0 <= i < |rows| ==> WrittenFor(lib, rows[i], tokens[i])
  }

  /** The presented token has the hash of no issued token but itself. */
  ghost predicate NoCollision(lib: Library, tokens: seq<string>, token: string) {
    forall t :: t in tokens && lib.sha256(t) == lib.sha256(token) ==> t == token
  }

  datatype CreateInput = CreateInput(
    name: string, token: string, permissions: set<string>, allowedIps: seq<string>, scope: seq<string>, rpm: int,
    expiresAt: Option<int>)

  // ---- the answer to a request, as a function -------------------------------------------------

  function LimitOf(row: KeyRow): int {
    if row.rpm <= 0 then DEFAULT_RPM else row.rpm
  }

  /** Everything checked before the limiter is asked. */
  predicate Usable(lib: Library, row: KeyRow, r: Request) {
    && lib.sha256(r.token) == row.hash
    && !(row.expiresAt.Some? && r.now > row.expiresAt.value)
    && lib.ipAllowed(r.ip, row.allowedIps)
  }

  predicate Permitted(row: KeyRow, r: Request) {
    r.permission == "" || r.permission in row.permissions
  }

  function CheckRow(lib: Library, window: nat, row: KeyRow, r: Request, h: L.History): (Status, L.History) {
    var call := L.Call(row.id, LimitOf(row), r.now);
    if !Usable(lib, row, r) then (Unauthorized, h)
    else if !Permitted(row, r) then (Forbidden, h)
    else (if L.Grants(h, window, call) then Ok else TooManyRequests, L.Record(h, window, call))
  }

  datatype Answer = Answer(key: Option<KeyRow>, status: Status, history: L.History)

  /** Candidates in order; the first that is not merely unauthorized decides. */
  function Scan(lib: Library, window: nat, rows: seq<KeyRow>, r: Request, h: L.History): Answer {
    if rows == [] then Answer(None, Unauthorized, h)
    else
      var (status, h') := CheckRow(lib, window, rows[0], r, h);
      if status == Ok then Answer(Some(rows[0]), Ok, h')
      else if status == Unauthorized then Scan(lib, window, rows[1..], r, h')
      else Answer(None, status, h')
  }

  function ActiveWithPrefix(prefix: Bytes): KeyRow -> bool {
    (row: KeyRow) => row.active && row.prefix == prefix
  }

  function Active(): KeyRow -> bool {
    (row: KeyRow) => row.active
  }

  /** The indexed lookup of Authenticate. */
  function IndexedAnswer(lib: Library, window: nat, rows: seq<KeyRow>, r: Request, h: L.History): Answer {
    var prefix := ExtractPrefix(r.token);
    if r.token == "" || prefix == [] then Answer(None, Unauthorized, h)
    else Scan(lib, window, Filter(rows, ActiveWithPrefix(prefix)), r, h)
  }

  /** The reference: every active key is tried. */
  function FullAnswer(lib: Library, window: nat, rows: seq<KeyRow>, r: Request, h: L.History): Answer {
    Scan(lib, window, Filter(rows, Active()), r, h)
  }

  /** Rows that cannot match may be left out of a scan. */
  lemma {:induction false} ScanSkips(
      lib: Library, window: nat, rows: seq<KeyRow>, keep: KeyRow -> bool, r: Request, h: L.History)
    requires forall i :: 0 <= i < |rows| && !keep(rows[i]) ==> !Usable(lib, rows[i], r)
    ensures Scan(lib, window, Filter(rows, keep), r, h) == Scan(lib, window, rows, r, h)
  {
    if rows != [] {
      var (status, h') := CheckRow(lib, window, rows[0], r, h);
      ScanSkips(lib, window, rows[1..], keep, r, h');
      if keep(rows[0]) {
        var rest := Filter(rows[1..], keep);
        assert ([rows[0]] + rest)[1..] == rest;
      }
    }
  }

  lemma MatchingTokenHasPrefix(lib: Library, rows: seq<KeyRow>, tokens: seq<string>, row: KeyRow, r: Request)
    requires AllWritten(lib, rows, tokens) && NoCollision(lib, tokens, r.token) && row in rows && Usable(lib, row, r)
    ensures row.prefix == ExtractPrefix(r.token) != [] && WrittenFor(lib, row, r.token)
  {
    var i :| 0 <= i < |rows| && rows[i] == row;
    assert tokens[i] in tokens;
    TrimFixpoint(tokens[i]);
  }

  /** The prefix index answers as a full scan: same key, same status, same limiter state. */
  lemma IndexAgreesWithFullScan(
      lib: Library, window: nat, rows: seq<KeyRow>, tokens: seq<string>, r: Request, h: L.History)
    requires AllWritten(lib, rows, tokens) && NoCollision(lib, tokens, r.token)
    ensures IndexedAnswer(lib, window, rows, r, h) == FullAnswer(lib, window, rows, r, h)
  {
    var prefix := ExtractPrefix(r.token);
    var active := Filter(rows, Active());
    forall i | 0 <= i < |active| && !ActiveWithPrefix(prefix)(active[i]) ensures !Usable(lib, active[i], r) {
      FilterMember(rows, Active(), active[i]);
      if Usable(lib, active[i], r) { MatchingTokenHasPrefix(lib, rows, tokens, active[i], r); }
    }
    if r.token == "" || prefix == [] {
      forall i | 0 <= i < |active| ensures !Usable(lib, active[i], r) {
        FilterMember(rows, Active(), active[i]);
        if Usable(lib, active[i], r) { MatchingTokenHasPrefix(lib, rows, tokens, active[i], r); }
        assert Trim("") == "";
      }
      NoCandidate(lib, window, active, r, h);
    } else {
      FilterRefine(rows, Active(), ActiveWithPrefix(prefix));
      ScanSkips(lib, window, active, ActiveWithPrefix(prefix), r, h);
    }
  }

  lemma {:induction false} NoCandidate(lib: Library, window: nat, rows: seq<KeyRow>, r: Request, h: L.History)
    requires forall i :: 0 <= i < |rows| ==> !Usable(lib, rows[i], r)
    ensures Scan(lib, window, rows, r, h) == Answer(None, Unauthorized, h)
  {
    if rows != [] { NoCandidate(lib, window, rows[1..], r, h); }
  }

  /** The accepted row is one of those tried, usable and permitted, and within its limit. */
  lemma {:induction false} ScanAccepts(lib: Library, window: nat, rows: seq<KeyRow>, r: Request, h: L.History)
    ensures var a := Scan(lib, window, rows, r, h);
            (a.status == Ok <==> a.key.Some?)
            && (a.key.Some? ==>
                  && a.key.value in rows && Usable(lib, a.key.value, r) && Permitted(a.key.value, r)
                  && L.Grants(h, window, L.Call(a.key.value.id, LimitOf(a.key.value), r.now))
                  && a.history == L.Record(h, window, L.Call(a.key.value.id, LimitOf(a.key.value), r.now)))
  {
    if rows != [] {
      var (status, h') := CheckRow(lib, window, rows[0], r, h);
      if status == Unauthorized { ScanAccepts(lib, window, rows[1..], r, h'); }
    }
  }

  /** The key of this row is meant by the request: active, found under the token's prefix, of the token's hash. */
  predicate Meant(lib: Library, row: KeyRow, r: Request) {
    && row.active && lib.sha256(r.token) == row.hash
    && |Utf8(Trim(r.token))| >= 8 && row.prefix == FirstBytes(Utf8(Trim(r.token)), 16)
  }

  function FirstBytes(b: Bytes, n: nat): Bytes { if |b| <= n then b else b[..n] }

  /** And may be used: its expiry, if any, has not passed, and the address is one of its own. */
  predicate InForce(lib: Library, row: KeyRow, r: Request) {
    (row.expiresAt == None || r.now <= row.expiresAt.value) && lib.ipAllowed(r.ip, row.allowedIps)
  }

  /** What the limiter is asked: 60 grants a minute when the row does not say. */
  function Asked(row: KeyRow, r: Request): L.Call { L.Call(row.id, if row.rpm > 0 then row.rpm else 60, r.now) }

  lemma PrefixMeans(token: string)
    ensures ExtractPrefix(token) != [] <==> |Utf8(Trim(token))| >= 8
    ensures ExtractPrefix(token) != [] ==> ExtractPrefix(token) == FirstBytes(Utf8(Trim(token)), 16)
  {
  }

  lemma CandidateMeans(lib: Library, row: KeyRow, r: Request)
    requires r.token != "" && ExtractPrefix(r.token) != []
    ensures row.active && row.prefix == ExtractPrefix(r.token) && Usable(lib, row, r)
            <==> Meant(lib, row, r) && InForce(lib, row, r)
  {
    PrefixMeans(r.token);
  }

  /** Row `i` is the first stored one that is meant and in force. */
  ghost predicate IsFirst(lib: Library, rows: seq<KeyRow>, r: Request, i: nat) {
    && i < |rows| && Meant(lib, rows[i], r) && InForce(lib, rows[i], r)
    && forall j :: 0 <= j < i ==> !(Meant(lib, rows[j], r) && InForce(lib, rows[j], r))
  }

  lemma {:induction false} ScanFromFirst(lib: Library, window: nat, rows: seq<KeyRow>, r: Request, h: L.History, i: nat)
    requires ExtractPrefix(r.token) != [] && r.token != "" && IsFirst(lib, rows, r, i)
    ensures var a := Scan(lib, window, Filter(rows, ActiveWithPrefix(ExtractPrefix(r.token))), r, h);
            var (status, h') := CheckRow(lib, window, rows[i], r, h);
            a == Answer(if status == Ok then Some(rows[i]) else None, status, h') && status != Unauthorized
  {
    CandidateMeans(lib, rows[0], r);
    var rest := Filter(rows[1..], ActiveWithPrefix(ExtractPrefix(r.token)));
    assert ([rows[0]] + rest)[1..] == rest;
    if i > 0 {
      assert !(Meant(lib, rows[0], r) && InForce(lib, rows[0], r));
      assert IsFirst(lib, rows[1..], r, i - 1);
      ScanFromFirst(lib, window, rows[1..], r, h, i - 1);
    }
  }

  /**
   Exactly which answer a request gets: the first stored row that its token means and that is in force decides, and
   without one the request is unauthorized. A key past its expiry never answers, one at its very expiry still does.
   */
  lemma FirstInForceDecides(lib: Library, window: nat, rows: seq<KeyRow>, r: Request, h: L.History)
    requires r.token != ""
    ensures var a := IndexedAnswer(lib, window, rows, r, h);
            && ((forall i: nat :: !IsFirst(lib, rows, r, i)) ==> a == Answer(None, Unauthorized, h))
            && forall i: nat :: IsFirst(lib, rows, r, i) ==>
                 var allowed, within := r.permission == "" || r.permission in rows[i].permissions,
                     L.Grants(h, window, Asked(rows[i], r));
                 && (a.status == Ok <==> allowed && within)
                 && (a.status == TooManyRequests <==> allowed && !within)
                 && (a.status == Forbidden <==> !allowed)
                 && a.key == (if allowed && within then Some(rows[i]) else None)
                 && a.history == if allowed then L.Record(h, window, Asked(rows[i], r)) else h
  {
    PrefixMeans(r.token);
    var prefix := ExtractPrefix(r.token);
    if prefix != [] {
      if i: nat :| IsFirst(lib, rows, r, i) {
        forall k: nat | IsFirst(lib, rows, r, k) ensures k == i {
        }
        ScanFromFirst(lib, window, rows, r, h, i);
      } else {
        NoneIsFirst(lib, rows, r);
        NoneInForce(lib, window, rows, r, h);
      }
    }
  }

  lemma NoneIsFirst(lib: Library, rows: seq<KeyRow>, r: Request)
    requires forall i: nat :: !IsFirst(lib, rows, r, i)
    ensures forall i :: 0 <= i < |rows| ==> !(Meant(lib, rows[i], r) && InForce(lib, rows[i], r))
  {
    var i := 0;
    while i < |rows|
      invariant 0 <= i <= |rows| && forall j :: 0 <= j < i ==> !(Meant(lib, rows[j], r) && InForce(lib, rows[j], r))
    {
      assert !IsFirst(lib, rows, r, i);
      i := i + 1;
    }
  }

  lemma NoneInForce(lib: Library, window: nat, rows: seq<KeyRow>, r: Request, h: L.History)
    requires r.token != "" && ExtractPrefix(r.token) != []
    requires forall i :: 0 <= i < |rows| ==> !(Meant(lib, rows[i], r) && InForce(lib, rows[i], r))
    ensures IndexedAnswer(lib, window, rows, r, h) == Answer(None, Unauthorized, h)
  {
    var prefix := ExtractPrefix(r.token);
    var candidates := Filter(rows, ActiveWithPrefix(prefix));
    forall i | 0 <= i < |candidates| ensures !Usable(lib, candidates[i], r) {
      FilterMember(rows, ActiveWithPrefix(prefix), candidates[i]);
      CandidateMeans(lib, candidates[i], r);
    }
    NoCandidate(lib, window, candidates, r, h);
  }

  /**
   An accepted request carries the token of a stored, active key whose expiry has not passed, comes from one of its
   addresses, asks for one of its permissions and is within its limit, of which it uses up one grant.
   */
  lemma AcceptedMeansMatched(lib: Library, window: nat, rows: seq<KeyRow>, r: Request, h: L.History)
    ensures var a := IndexedAnswer(lib, window, rows, r, h);
            (a.status == Ok <==> a.key.Some?)
            && (a.key.Some? ==>
                  var key := a.key.value;
                  && key in rows && key.active && lib.sha256(r.token) == key.hash
                  && key.prefix == ExtractPrefix(r.token)
                  && (key.expiresAt.Some? ==> r.now <= key.expiresAt.value)
                  && lib.ipAllowed(r.ip, key.allowedIps)
                  && (r.permission == "" || r.permission in key.permissions)
                  && L.Grants(h, window, Asked(key, r)) && a.history == L.Record(h, window, Asked(key, r)))
  {
    var prefix := ExtractPrefix(r.token);
    ScanAccepts(lib, window, Filter(rows, ActiveWithPrefix(prefix)), r, h);
    var a := IndexedAnswer(lib, window, rows, r, h);
    if a.key.Some? { FilterMember(rows, ActiveWithPrefix(prefix), a.key.value); }
  }

  // ---- the service ----------------------------------------------------------------------------

  class Service {
    const lib: Library
    const limiter: L.Limiter
    var rows: seq<KeyRow>
    /** The plaintext each row was written for; the server keeps none of them. */
    ghost var issued: seq<string>

    ghost predicate Valid()
      reads this, limiter
    {
      limiter.Valid() && AllWritten(lib, rows, issued)
    }

    constructor (lib: Library, limiter: L.Limiter)
      requires limiter.Valid()
      ensures Valid() && rows == [] && this.lib == lib && this.limiter == limiter
    {
      this.lib, this.limiter, rows, issued := lib, limiter, [], [];
    }

    /** Create; the generated token and the fresh id are inputs. None is a rejected input. */
    method Create(ownerId: string, input: CreateInput, generated: string, id: string) returns (token: Option<string>)
      requires Valid()
      modifies this
      ensures Valid()
      ensures var t := Trim(if Trim(input.token) != "" then Trim(input.token) else generated);
              token == if Trim(input.name) == "" || |Utf8(t)| < 8 then None else Some(t)
      ensures token.None? ==> rows == old(rows) && issued == old(issued)
      ensures token.Some? ==> issued == old(issued) + [token.value]
      ensures token.Some? ==>
                && |rows| == |old(rows)| + 1 && rows[..|old(rows)|] == old(rows)
                && var row := rows[|old(rows)|];
                   && WrittenFor(lib, row, token.value) && row.active && row.lastUsedAt == None
                   && row.id == id && row.ownerId == ownerId && row.name == Trim(input.name)
                   && row.permissions == input.permissions && row.allowedIps == input.allowedIps
                   && row.scope == input.scope && row.expiresAt == input.expiresAt
                   && row.rpm == if input.rpm > 0 then input.rpm else 60
    {
      if Trim(input.name) == "" { return None; }
      var plaintext := Trim(input.token);
      if plaintext == "" { plaintext := generated; }
      plaintext := Trim(plaintext);
      if |Utf8(plaintext)| < 8 { return None; }
      var rpm := input.rpm;
      if rpm <= 0 { rpm := DEFAULT_RPM; }
      TrimFixpoint(plaintext);
      TrimFixpoint(input.token);
      TrimFixpoint(generated);
      var row := KeyRow(id, ownerId, Trim(input.name), ExtractPrefix(plaintext), lib.sha256(plaintext),
                        input.permissions,
                        input.allowedIps, input.scope, rpm, true, input.expiresAt, None);
      assert WrittenFor(lib, row, plaintext);
      rows, issued := rows + [row], issued + [plaintext];
      return Some(plaintext);
    }

    /** `SELECT ... WHERE key_prefix = $1 AND is_active = 1`. */
    function Candidates(prefix: Bytes): seq<KeyRow>
      reads this
    {
      Filter(rows, ActiveWithPrefix(prefix))
    }

    method Authenticate(r: Request) returns (key: Option<KeyRow>, status: Status)
      requires Valid() && limiter.clock <= r.now
      modifies this, limiter
      ensures Valid()
      ensures Answer(key, status, limiter.history)
           == IndexedAnswer(lib, limiter.window, old(rows), r, old(limiter.history))
      ensures NoCollision(lib, issued, r.token) ==>
                Answer(key, status, limiter.history)
                  == FullAnswer(lib, limiter.window, old(rows), r, old(limiter.history))
      ensures rows == if key.Some? then Touched(old(rows), key.value.id, r.now) else old(rows)
      ensures issued == old(issued)
    {
      if NoCollision(lib, issued, r.token) {
        IndexAgreesWithFullScan(lib, limiter.window, rows, issued, r, limiter.history);
      }
      if r.token == "" { return None, Unauthorized; }
      var prefix := ExtractPrefix(r.token);
      if prefix == [] { return None, Unauthorized; }
      var candidates := Candidates(prefix);
      ghost var answer := Scan(lib, limiter.window, candidates, r, limiter.history);
      for i := 0 to |candidates|
        invariant limiter.Valid() && limiter.clock <= r.now && rows == old(rows) && issued == old(issued)
        invariant answer == Scan(lib, limiter.window, candidates[i..], r, limiter.history)
      {
        assert candidates[i..][1..] == candidates[i + 1..];
        status := CheckCandidate(candidates[i], r);
        if status == Ok {
          TouchedWritten(lib, rows, issued, candidates[i].id, r.now);
          rows := Touched(rows, candidates[i].id, r.now);
          return Some(candidates[i]), Ok;
        }
        if status == Forbidden || status == TooManyRequests { return None, status; }
      }
      return None, Unauthorized;
    }

    /** scanAndCheckCandidate. */
    method CheckCandidate(row: KeyRow, r: Request) returns (status: Status)
      requires limiter.Valid() && limiter.clock <= r.now
      modifies limiter
      ensures limiter.Valid() && limiter.clock <= r.now
      ensures (status, limiter.history) == CheckRow(lib, limiter.window, row, r, old(limiter.history))
    {
      if lib.sha256(r.token) != row.hash { return Unauthorized; }
      if row.expiresAt.Some? && r.now > row.expiresAt.value { return Unauthorized; }
      if !lib.ipAllowed(r.ip, row.allowedIps) { return Unauthorized; }
      if r.permission != "" && r.permission !in row.permissions { return Forbidden; }
      var rpm := row.rpm;
      if rpm <= 0 { rpm := DEFAULT_RPM; }
      var allowed := limiter.Allow(row.id, rpm, r.now);
      if !allowed { return TooManyRequests; }
      return Ok;
    }
  }

  /** `UPDATE api_keys SET last_used_at = $1 WHERE id = $2`. */
  function Touched(rows: seq<KeyRow>, id: string, now: int): (r: seq<KeyRow>)
    ensures |r| == |rows|
    ensures forall i :: 0 <= i < |rows| ==>
              r[i] == if rows[i].id == id then rows[i].(lastUsedAt := Some(now)) else rows[i]
  {
    seq(|rows|, i requires 0 <= i < |rows| => if rows[i].id == id then rows[i].(lastUsedAt := Some(now)) else rows[i])
  }

  lemma TouchedWritten(lib: Library, rows: seq<KeyRow>, tokens: seq<string>, id: string, now: int)
    requires AllWritten(lib, rows, tokens)
    ensures AllWritten(lib, Touched(rows, id, now), tokens)
  {
  }
}
