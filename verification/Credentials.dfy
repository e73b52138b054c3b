/** Recovery keys in the forms people type them, and which password logs in after a change. */
module Credentials {
  import opened Text
  import opened Accounts
  import AccountRuns

  // ---- recovery keys --------------------------------------------------------------------------

  /** The body alphabet is digits and capitals without "O" (among others). */
  predicate KeyBody(body: string) {
    body != "" && forall i :: 0 <= i < |body| ==> IsKeyChar(body[i]) && body[i] != 'O'
  }

  /** What the user typed, reduced to its capital letters and digits. */
  function Spelled(s: string): string { KeyChars(Upper(s)) }

  lemma {:induction false} KeyCharsConcat(a: string, b: string)
    ensures KeyChars(a + b) == KeyChars(a) + KeyChars(b)
  {
    if a == "" {
      assert a + b == b;
    } else {
      assert (a + b)[1..] == a[1..] + b;
      KeyCharsConcat(a[1..], b);
    }
  }

  lemma SpelledConcat(a: string, b: string)
    ensures Spelled(a + b) == Spelled(a) + Spelled(b)
  {
    assert Upper(a + b) == Upper(a) + Upper(b);
    KeyCharsConcat(Upper(a), Upper(b));
  }

  lemma SpelledSpace(c: char)
    requires IsSpace(c)
    ensures Spelled([c]) == ""
  {
    assert Upper([c]) == [c] && !IsKeyChar(c);
    assert KeyChars([c]) == KeyChars([c][1..]);
  }

  lemma {:induction false} SpelledTrimLeft(s: string)
    ensures Spelled(TrimLeft(s)) == Spelled(s)
  {
    if s != "" && IsSpace(s[0]) {
      SpelledTrimLeft(s[1..]);
      SpelledSpace(s[0]);
      SpelledConcat([s[0]], s[1..]);
      assert s == [s[0]] + s[1..];
    }
  }

  lemma {:induction false} SpelledTrimRight(s: string)
    ensures Spelled(TrimRight(s)) == Spelled(s)
    decreases |s|
  {
    if s != "" && IsSpace(s[|s| - 1]) {
      var front, last := s[..|s| - 1], s[|s| - 1];
      SpelledTrimRight(front);
      SpelledSpace(last);
      SpelledConcat(front, [last]);
      assert s == front + [last];
    }
  }

  lemma SpelledTrim(s: string)
    ensures Spelled(Trim(s)) == Spelled(s)
  {
    SpelledTrimLeft(s);
    SpelledTrimRight(TrimLeft(s));
  }

  lemma WithoutPrefixIs(s: string, prefix: string, rest: string)
    ensures WithoutPrefix(s, prefix) == rest <==> s == prefix + rest || (s == rest && !(prefix <= s))
  {
    if prefix <= s { assert s == prefix + s[|prefix|..]; }
  }

  /**
   Exactly these spellings normalise to a key body: the body, with "OP-REC" before it, or with "OP" alone when
   the body does not itself begin with "REC" (trimming the longer prefix then eats part of the body).
   */
  lemma NormalForms(s: string, body: string)
    requires KeyBody(body)
    ensures NormalizeRecoveryKey(s) == body <==>
            || Spelled(s) == body || Spelled(s) == "OPREC" + body || Spelled(s) == "OPREC" + ("OP" + body)
            || (Spelled(s) == "OP" + body && !("REC" <= body))
  {
    SpelledTrim(s);
    var x := Spelled(s);
    var y := WithoutPrefix(x, "OPREC");
    WithoutPrefixIs(y, "OP", body);
    WithoutPrefixIs(x, "OPREC", body);
    WithoutPrefixIs(x, "OPREC", "OP" + body);
    NoPrefixO(body);
    PrefixOfLonger(body);
  }

  lemma NoPrefixO(body: string)
    requires KeyBody(body)
    ensures !("OPREC" <= body) && !("OP" <= body)
  {
    assert body[0] != 'O';
  }

  lemma PrefixOfLonger(body: string)
    ensures "OPREC" <= "OP" + body <==> "REC" <= body
  {
    var s := "OP" + body;
    if "REC" <= body { assert s[..5] == "OPREC"; }
    if "OPREC" <= s { assert body[..3] == s[2..5] == "OPREC"[2..5] == "REC"; }
  }

  /** The printed form OP-REC-xxxx-xxxx-xxxx-xxxx. */
  function Printed(body: string): string
    requires |body| == 16
  {
    "OP-REC-" + (body[..4] + ("-" + (body[4..8] + ("-" + (body[8..12] + ("-" + body[12..]))))))
  }

  lemma {:induction false} KeyCharsOfBody(b: string)
    requires forall i :: 0 <= i < |b| ==> IsKeyChar(b[i])
    ensures Spelled(b) == b
  {
    assert Upper(b) == b;
    if b != "" {
      KeyCharsOfBody(b[1..]);
      assert Upper(b[1..]) == b[1..];
    }
  }

  lemma SpelledHead()
    ensures Spelled("OP-REC-") == "OPREC" && Spelled("-") == ""
  {
    KeyCharsOfBody("OP");
    KeyCharsOfBody("REC");
    assert Upper("-") == "-";
    assert KeyChars("-") == KeyChars("-"[1..]);
    SpelledConcat("OP", "-");
    SpelledConcat("OP-", "REC");
    SpelledConcat("OP-REC", "-");
    assert "OP" + "-" == "OP-" && "OP-" + "REC" == "OP-REC" && "OP-REC" + "-" == "OP-REC-" && "OP" + "REC" == "OPREC";
  }

  lemma SpelledDashed(part: string, rest: string)
    requires forall i :: 0 <= i < |part| ==> IsKeyChar(part[i])
    ensures Spelled(part + ("-" + rest)) == part + Spelled(rest)
  {
    SpelledHead();
    KeyCharsOfBody(part);
    SpelledConcat(part, "-" + rest);
    SpelledConcat("-", rest);
  }

  lemma PrintedSpells(body: string)
    requires KeyBody(body) && |body| == 16
    ensures Spelled(Printed(body)) == "OPREC" + body
  {
    var c, d := body[8..12], body[12..];
    var b3 := c + ("-" + d);
    var b2 := body[4..8] + ("-" + b3);
    var b1 := body[..4] + ("-" + b2);
    KeyCharsOfBody(d);
    SpelledDashed(c, d);
    SpelledDashed(body[4..8], b3);
    SpelledDashed(body[..4], b2);
    SpelledHead();
    SpelledConcat("OP-REC-", b1);
    assert body[..4] + (body[4..8] + (c + d)) == body;
  }

  lemma UpperLower(s: string)
    ensures Upper(Lower(s)) == Upper(s)
  {
    forall i | 0 <= i < |s| ensures Upper(Lower(s))[i] == Upper(s)[i] {
    }
  }

  lemma SpelledPadded(s: string)
    ensures Spelled(" " + s + " ") == Spelled(s)
  {
    SpelledSpace(' ');
    SpelledConcat(" ", s);
    SpelledConcat(" " + s, " ");
  }

  /** A key is accepted as printed, in small letters, with blanks around it, and without its separators. */
  lemma PrintedKeyNormalizes(body: string)
    requires KeyBody(body) && |body| == 16
    ensures NormalizeRecoveryKey(Printed(body)) == body && NormalizeRecoveryKey(Lower(Printed(body))) == body
    ensures NormalizeRecoveryKey("OPREC" + body) == body && NormalizeRecoveryKey(body) == body
    ensures NormalizeRecoveryKey(" " + Printed(body) + " ") == body
  {
    var printed := Printed(body);
    PrintedSpells(body);
    UpperLower(printed);
    SpelledPadded(printed);
    KeyCharsOfBody(body);
    KeyCharsOfBody("OPREC" + body);
    NormalForms(printed, body);
    NormalForms(Lower(printed), body);
    NormalForms("OPREC" + body, body);
    NormalForms(body, body);
    NormalForms(" " + printed + " ", body);
  }

  // ---- after a recovery -----------------------------------------------------------------------

  /** Of these two passwords, the hash of one verifies the other exactly when they are the same. */
  predicate Exact(w: World, password: string, salt: int, tried: string) {
    w.verify(tried, w.hashPassword(password, salt)) <==> tried == password
  }

  lemma RecoveryResult(w: World, st: State, r: Request)
    requires r.RecoverPassword? && Recover(w, st, r).reply.SignedIn?
    ensures var o := Recover(w, st, r);
            var u := o.reply.user;
            && UserByEmail(st.users, NormalizeEmail(r.email)) == Some(u) && u in o.state.users
            && HasEmail(o.state.users, u, NormalizeEmail(r.email)) && o.state.users[u].active
            && o.state.users[u].passwordHash == w.hashPassword(Trim(r.newPassword), r.salt)
            && o.state.users[u].recovery == w.sha(NormalizeRecoveryKey(r.newKey))
            && KeyMatches(w, st.users[u], r.key)
  {
  }

  /** A used recovery key is spent: afterwards it matches only if it spells the new key. */
  lemma UsedRecoveryKeyIsSpent(w: World, st: State, r: Request, key: string)
    requires r.RecoverPassword? && Recover(w, st, r).reply.SignedIn?
    requires var next, given := NormalizeRecoveryKey(r.newKey), NormalizeRecoveryKey(key);
             w.sha(given) == w.sha(next) ==> given == next
    ensures var o := Recover(w, st, r);
            o.reply.user in o.state.users
            && (KeyMatches(w, o.state.users[o.reply.user], key) <==>
                NormalizeRecoveryKey(key) == NormalizeRecoveryKey(r.newKey) && NormalizeRecoveryKey(key) != "")
  {
    RecoveryResult(w, st, r);
  }

  lemma EmailFinds(users: map<string, User>, id: string, email: string)
    requires UniqueEmails(users) && HasEmail(users, id, email)
    ensures UserByEmail(users, email) == Some(id)
  {
    var found := UserByEmail(users, email).value;
    assert HasEmail(users, found, email);
  }

  predicate Unused(w: World, sessions: map<string, Session>, m: Minted) {
    m.id !in sessions && forall s :: s in sessions ==> sessions[s].tokenHash != w.sha(m.token)
  }

  lemma LoginReply(w: World, st: State, id: string, login: Request)
    requires login.Login? && UserByEmail(st.users, NormalizeEmail(login.email)) == Some(id) && id in st.users
    requires st.users[id].active && Unused(w, st.sessions, login.minted)
    ensures LogIn(w, st, login).reply == if w.verify(login.password, st.users[id].passwordHash) then SignedIn(id)
                                         else Unauthorized
  {
    assert Holder(st.sessions, w.sha(login.minted.token)).None?;
  }

  /**
   After a recovery exactly one password logs in: the new one without surrounding blanks. So the password as
   typed logs in if and only if it had none, since the login does not trim what the recovery trimmed.
   */
  lemma LoginAfterRecovery(w: World, st: State, r: Request, login: Request)
    requires Valid(st) && r.RecoverPassword? && Recover(w, st, r).reply.SignedIn?
    requires login.Login? && Exact(w, Trim(r.newPassword), r.salt, login.password)
             && NormalizeEmail(login.email) == NormalizeEmail(r.email)
    requires Unused(w, Recover(w, st, r).state.sessions, login.minted)
    ensures var reply := LogIn(w, Recover(w, st, r).state, login).reply;
            && reply == (if login.password == Trim(r.newPassword) then SignedIn(Recover(w, st, r).reply.user)
                         else Unauthorized)
            && (login.password == r.newPassword ==> (reply.SignedIn? <==> Trimmed(r.newPassword)))
  {
    var o := Recover(w, st, r);
    RecoveryResult(w, st, r);
    AccountRuns.RecoverValid(w, st, r);
    EmailFinds(o.state.users, o.reply.user, NormalizeEmail(login.email));
    LoginReply(w, o.state, o.reply.user, login);
    TrimFixpoint(r.newPassword);
  }
}
