/** The decision to admit a session token (pkg/session/manager.go), over the blocklist
    and the account store running side by side on one clock. */
module Sessions {
  import opened Wrappers
  import opened Strings
  import opened Integers
  import TokenStore
  import Revocation
  import opened Accounts

  const ISSUER := "everest"
  const LOGIN_SUFFIX := ":login"

  /** The claims of a token that the code reads; None stands for an absent claim or one
      of another type (sections 4.1.1 to 4.1.7 of RFC 7519; uti is Entra ID's jti). */
  datatype Claims = Claims(
    sub: Option<string>, iss: Option<string>, iat: Option<int>,
    jti: Option<string>, uti: Option<string>, exp: Option<int>)

  function TrimSuffix(s: string, suffix: string): string {
    if |suffix| <= |s| && s[|s| - |suffix|..] == suffix then s[..|s| - |suffix|] else s
  }

  /** The user name and whether it is a built-in user. */
  function ExtractUsername(token: Claims): Result<(string, bool), SessionError> {
    if token.sub.None? then Err(NoSubject)
    else if token.iss.None? then Err(NoIssuer)
    else Ok((TrimSuffix(token.sub.value, LOGIN_SUFFIX), token.iss.value == ISSUER))
  }

  function StringClaim(claim: Option<string>): string {
    if claim.Some? then claim.value else ""
  }

  function Shortened(token: Claims): Result<string, SessionError> {
    var jti, uti := StringClaim(token.jti), StringClaim(token.uti);
    var id := if jti != "" then jti else uti;
    if id == "" then Err(NoTokenId)
    else if token.exp.None? then Err(NoExpiry)
    else Ok(TokenStore.ShortenToken(id, token.exp.value))
  }

  /** Manager.IsBlocked. */
  function IsBlocked(token: Claims, accounts: Contents, list: Option<string>): Result<bool, SessionError> {
    match ExtractUsername(token)
    case Err(e) => Err(e)
    case Ok((user, builtIn)) =>
      var byAccount := if builtIn then BlockedByAccount(accounts, user, token.iat) else Ok(false);
      if byAccount.Err? || byAccount.value then byAccount
      else
        match Shortened(token)
        case Err(e) => Err(e)
        case Ok(short) => Ok(TokenStore.Listed(list, short))
  }

  /** The middleware passes a request on only when its token is found not blocked. */
  predicate Admitted(token: Claims, accounts: Contents, list: Option<string>) {
    IsBlocked(token, accounts, list) == Ok(false)
  }

  /** The claims CreateSession gives a user that logs in at the instant now. */
  function SessionClaims(user: string, id: string, now: int, lifetime: nat): Claims {
    Claims(Some(user + LOGIN_SUFFIX), Some(ISSUER), Some(SecondOf(now)), Some(id), None,
           Some(SecondOf(now) + lifetime))
  }

  lemma SessionUser(user: string, id: string, now: int, lifetime: nat)
    ensures ExtractUsername(SessionClaims(user, id, now, lifetime)) == Ok((user, true))
  {
    var sub := user + LOGIN_SUFFIX;
    assert sub[|user|..] == LOGIN_SUFFIX && sub[..|user|] == user;
  }

  // ---------- the decision, claim by claim ----------

  /** The subject names this user: followed by the suffix, or bare if it does not end so. */
  ghost predicate Names(sub: string, user: string) {
    || sub == user + LOGIN_SUFFIX
    || (sub == user && forall prefix: string :: sub != prefix + LOGIN_SUFFIX)
  }

  lemma NamedUser(sub: string, user: string)
    requires Names(sub, user)
    ensures TrimSuffix(sub, LOGIN_SUFFIX) == user
  {
    var n := |LOGIN_SUFFIX|;
    if sub == user + LOGIN_SUFFIX {
      assert sub[|sub| - n..] == LOGIN_SUFFIX && sub[..|sub| - n] == user;
    } else if |sub| >= n && sub[|sub| - n..] == LOGIN_SUFFIX {
      assert sub == sub[..|sub| - n] + LOGIN_SUFFIX;
    }
  }

  /** The token is identified by its jti or, without one, by its uti. */
  predicate Identifies(token: Claims, id: string) {
    id != "" && (token.jti == Some(id) || ((token.jti == None || token.jti == Some("")) && token.uti == Some(id)))
  }

  predicate Anonymous(token: Claims) {
    (token.jti == None || token.jti == Some("")) && (token.uti == None || token.uti == Some(""))
  }

  /** The last password change of an account is not after the token's issue. */
  predicate IssuedSince(token: Claims, account: Account) {
    account.passwordMtime.Unset?
    || (account.passwordMtime.At? && token.iat.Some? && account.passwordMtime.second <= token.iat.value)
  }

  ghost predicate OnList(list: Option<string>, short: string) {
    list.Some? && exists t | t in Split(list.value) :: Contains(t, short)
  }

  lemma ListedExactly(list: Option<string>, short: string)
    requires SEP !in short
    ensures TokenStore.Listed(list, short) <==> OnList(list, short)
  {
    if list.Some? {
      TokenStore.LookupExact(list.value, short);
    }
  }

  lemma ShortenedId(token: Claims, id: string)
    requires Identifies(token, id)
    ensures Shortened(token) == if token.exp.None? then Err(NoExpiry) else Ok(id + FormatInt(token.exp.value))
  {
  }

  lemma CommaFree(id: string, exp: int)
    requires SEP !in id
    ensures SEP !in id + FormatInt(exp)
  {
  }

  /** Whatever the issuer: a token with a subject, an issuer, an identifier and an expiry is
      admitted exactly when no list element contains its identifier followed by the expiry
      and, if the issuer is built in, its account exists unchanged since the issue. */
  lemma AdmittedExactly(token: Claims, accounts: Contents, list: Option<string>, user: string, id: string)
    requires token.sub.Some? && token.iss.Some? && Names(token.sub.value, user)
    requires Identifies(token, id) && SEP !in id && token.exp.Some?
    ensures Admitted(token, accounts, list) <==>
      && (token.iss == Some("everest") ==> user in accounts.users && IssuedSince(token, accounts.users[user]))
      && !OnList(list, id + FormatInt(token.exp.value))
  {
    NamedUser(token.sub.value, user);
    ShortenedId(token, id);
    CommaFree(id, token.exp.value);
    ListedExactly(list, id + FormatInt(token.exp.value));
  }

  /** Without a subject or an issuer the decision fails. A token of another issuer never
      fails on an account, and one that its account does not block fails without an
      identifier or an expiry. */
  lemma MissingClaims(token: Claims, accounts: Contents, list: Option<string>, user: string)
    requires token.sub.Some? ==> Names(token.sub.value, user)
    ensures token.sub.None? ==> IsBlocked(token, accounts, list) == Err(NoSubject)
    ensures token.sub.Some? && token.iss.None? ==> IsBlocked(token, accounts, list) == Err(NoIssuer)
    ensures token.sub.Some? && token.iss.Some? && PassesAccount(token, accounts, user) ==>
      && (Anonymous(token) ==> IsBlocked(token, accounts, list) == Err(NoTokenId))
      && (!Anonymous(token) && token.exp.None? ==> IsBlocked(token, accounts, list) == Err(NoExpiry))
  {
    if token.sub.Some? {
      NamedUser(token.sub.value, user);
    }
  }

  predicate PassesAccount(token: Claims, accounts: Contents, user: string) {
    token.iss == Some("everest") ==> user in accounts.users && IssuedSince(token, accounts.users[user])
  }

  /** The account of a built-in user decides before the identifier and the expiry are read:
      it blocks the token, or its time of change or the token's issue time is unusable. */
  lemma AccountDecides(token: Claims, accounts: Contents, list: Option<string>, user: string)
    requires token.sub.Some? && Names(token.sub.value, user) && token.iss == Some("everest")
    ensures user !in accounts.users ==> IsBlocked(token, accounts, list) == Ok(true)
    ensures user in accounts.users ==>
      var mtime := accounts.users[user].passwordMtime;
      && (mtime.Malformed? ==> IsBlocked(token, accounts, list) == Err(BadPasswordMtime))
      && (mtime.At? && token.iat.None? ==> IsBlocked(token, accounts, list) == Err(NoIssueTime))
      && (mtime.At? && token.iat.Some? && token.iat.value < mtime.second ==>
            IsBlocked(token, accounts, list) == Ok(true))
  {
    NamedUser(token.sub.value, user);
  }

  // ---------- both stores on one clock ----------

  datatype System = System(blocklist: Revocation.State, accounts: Contents)

  datatype Action = Blocklist(a: Revocation.Action) | Account(op: Op)

  function Apply(s: System, action: Action, hash: string -> string): System {
    match action
    case Blocklist(a) => s.(blocklist := Revocation.Apply(s.blocklist, a))
    case Account(op) => s.(accounts := Step(s.accounts, op, s.blocklist.clock, hash).0)
  }

  function RunAll(s: System, actions: seq<Action>, hash: string -> string): System
    decreases |actions|
  {
    if actions == [] then s else RunAll(Apply(s, actions[0], hash), actions[1..], hash)
  }

  function BlocklistPart(actions: seq<Action>): seq<Revocation.Action>
    decreases |actions|
  {
    if actions == [] then []
    else if actions[0].Blocklist? then [actions[0].a] + BlocklistPart(actions[1..])
    else BlocklistPart(actions[1..])
  }

  lemma {:induction false} RunBlocklistPart(s: System, actions: seq<Action>, hash: string -> string)
    ensures RunAll(s, actions, hash).blocklist == Revocation.Run(s.blocklist, BlocklistPart(actions))
    decreases |actions|
  {
    if actions != [] {
      RunBlocklistPart(Apply(s, actions[0], hash), actions[1..], hash);
      if actions[0].Blocklist? {
        var rest := BlocklistPart(actions[1..]);
        assert ([actions[0].a] + rest)[1..] == rest;
      }
    }
  }

  lemma {:induction false} BlocklistPartConcat(a: seq<Action>, b: seq<Action>)
    ensures BlocklistPart(a + b) == BlocklistPart(a) + BlocklistPart(b)
    decreases |a|
  {
    if a == [] {
      assert a + b == b;
    } else {
      BlocklistPartConcat(a[1..], b);
      assert (a + b)[1..] == a[1..] + b;
    }
  }

  lemma {:induction false} RunAllConcat(s: System, a: seq<Action>, b: seq<Action>, hash: string -> string)
    ensures RunAll(s, a + b, hash) == RunAll(RunAll(s, a, hash), b, hash)
    decreases |a|
  {
    if a == [] {
      assert a + b == b;
    } else {
      assert (a + b)[1..] == a[1..] + b;
      RunAllConcat(Apply(s, a[0], hash), a[1..], b, hash);
    }
  }

  /** Once the clock has passed the token's issue second, a token blocked by its account
      stays blocked by it. */
  lemma {:induction false} RunKeepsAccountBlock(s: System, actions: seq<Action>, user: string, issuedAt: int,
                                                hash: string -> string)
    requires BlockedByAccount(s.accounts, user, Some(issuedAt)) == Ok(true)
    requires SecondOf(s.blocklist.clock) > issuedAt
    ensures BlockedByAccount(RunAll(s, actions, hash).accounts, user, Some(issuedAt)) == Ok(true)
    decreases |actions|
  {
    if actions != [] {
      match actions[0] {
        case Blocklist(a) =>
          Revocation.StepGrows(s.blocklist, a);
          SecondsMonotone(s.blocklist.clock, Revocation.Apply(s.blocklist, a).clock);
        case Account(op) =>
          StepKeepsBlocked(s.accounts, Event(op, s.blocklist.clock), user, issuedAt, hash);
      }
      RunKeepsAccountBlock(Apply(s, actions[0], hash), actions[1..], user, issuedAt, hash);
    }
  }

  lemma RefusedWhen(user: string, id: string, issued: int, lifetime: nat, accounts: Contents,
                    list: Option<string>)
    requires id != ""
    requires var token := SessionClaims(user, id, issued, lifetime);
      || TokenStore.Listed(list, TokenStore.ShortenToken(id, SecondOf(issued) + lifetime))
      || BlockedByAccount(accounts, user, token.iat) == Ok(true)
    ensures !Admitted(SessionClaims(user, id, issued, lifetime), accounts, list)
  {
    SessionUser(user, id, issued, lifetime);
  }

  lemma StillListed(s0: Revocation.State, before: seq<Revocation.Action>, after: seq<Revocation.Action>,
                    id: string, exp: nat)
    requires Revocation.Initial(s0)
    requires SEP !in id
    requires Pow10(9) <= exp < Pow10(10)
    requires TokenStore.ShortenToken(id, exp) in Revocation.Run(s0, before).granted
    requires Revocation.Run(s0, before + after).clock < exp * NANOS_PER_SECOND
    ensures var s := Revocation.Run(s0, before + after);
      |s.versions| >= 1 && TokenStore.Listed(Revocation.Current(s), TokenStore.ShortenToken(id, exp))
  {
    var short := TokenStore.ShortenToken(id, exp);
    Revocation.CommaFreeShortened(id, exp);
    TokenStore.LiveUntilExpiry(id, exp, Revocation.Run(s0, before + after).clock);
    Revocation.NoLostRevocation(s0, before, after, short);
  }

  /** The session was logged out, or its account was deleted or given a new password in a
      second after the issue. */
  ghost predicate Revoked(s: System, user: string, id: string, issued: int, lifetime: nat) {
    || TokenStore.ShortenToken(id, SecondOf(issued) + lifetime) in s.blocklist.granted
    || (BlockedByAccount(s.accounts, user, Some(SecondOf(issued))) == Ok(true)
        && SecondOf(s.blocklist.clock) > SecondOf(issued))
  }

  /** A revoked session is refused in every later state before its expiry, whatever any
      server does to either store in the meantime. */
  lemma RevokedSessionIsRefused(s0: System, before: seq<Action>, after: seq<Action>, hash: string -> string,
                                user: string, id: string, issued: int, lifetime: nat)
    requires Revocation.Initial(s0.blocklist)
    requires id != "" && SEP !in id
    requires Pow10(9) <= SecondOf(issued) + lifetime < Pow10(10)
    requires Revoked(RunAll(s0, before, hash), user, id, issued, lifetime)
    requires RunAll(s0, before + after, hash).blocklist.clock
           < (SecondOf(issued) + lifetime) * NANOS_PER_SECOND
    ensures var s := RunAll(s0, before + after, hash);
      && |s.blocklist.versions| >= 1
      && !Admitted(SessionClaims(user, id, issued, lifetime), s.accounts, Revocation.Current(s.blocklist))
  {
    var s1, s := RunAll(s0, before, hash), RunAll(s0, before + after, hash);
    RunBlocklistPart(s0, before, hash);
    RunBlocklistPart(s0, before + after, hash);
    BlocklistPartConcat(before, after);
    Revocation.RunGrows(s0.blocklist, BlocklistPart(before + after));
    if TokenStore.ShortenToken(id, SecondOf(issued) + lifetime) in s1.blocklist.granted {
      StillListed(s0.blocklist, BlocklistPart(before), BlocklistPart(after), id, SecondOf(issued) + lifetime);
    } else {
      RunAllConcat(s0, before, after, hash);
      RunKeepsAccountBlock(s1, after, user, SecondOf(issued), hash);
    }
    RefusedWhen(user, id, issued, lifetime, s.accounts, Revocation.Current(s.blocklist));
  }

  /** A token of any issuer that was logged out is refused in every later state before its
      expiry. */
  lemma LoggedOutTokenIsRefused(s0: System, before: seq<Action>, after: seq<Action>, hash: string -> string,
                                token: Claims, id: string, exp: nat)
    requires Revocation.Initial(s0.blocklist)
    requires Identifies(token, id) && SEP !in id && token.exp == Some(exp) && TokenStore.TenDigits(exp)
    requires id + FormatInt(exp) in RunAll(s0, before, hash).blocklist.granted
    requires RunAll(s0, before + after, hash).blocklist.clock < exp * NANOS_PER_SECOND
    ensures var s := RunAll(s0, before + after, hash);
      && |s.blocklist.versions| >= 1
      && !Admitted(token, s.accounts, Revocation.Current(s.blocklist))
  {
    RunBlocklistPart(s0, before, hash);
    RunBlocklistPart(s0, before + after, hash);
    BlocklistPartConcat(before, after);
    TokenStore.TenDigitPowers();
    StillListed(s0.blocklist, BlocklistPart(before), BlocklistPart(after), id, exp);
    ShortenedId(token, id);
  }

  /** A session is admitted as long as nothing revokes it: its account exists with its last
      change in a second not after the issue, and no element of the list contains the
      shortened token. */
  lemma LiveSessionIsAdmitted(accounts: Contents, list: string, user: string, id: string,
                              issued: int, lifetime: nat)
    requires id != "" && SEP !in id
    requires user in accounts.users && accounts.users[user].passwordMtime.At?
    ensures var token := SessionClaims(user, id, issued, lifetime);
      Admitted(token, accounts, Some(list)) <==>
        && accounts.users[user].passwordMtime.second <= SecondOf(issued)
        && forall t | t in Split(list) :: !Contains(t, Shortened(token).value)
  {
    SessionUser(user, id, issued, lifetime);
    var token := SessionClaims(user, id, issued, lifetime);
    var short := Shortened(token).value;
    assert SEP !in short;
    TokenStore.LookupExact(list, short);
  }
}
