/** The built-in user accounts kept in one Secret (pkg/kubernetes/accounts.go): the
    accounts by user name, and annotations that mark passwords stored in plain text. */
module Accounts {
  import opened Wrappers
  import opened Integers

  const INSECURE_PREFIX := "insecure-password/"
  const INSECURE_TRUE := "true"

  datatype Capability = Login | ApiKey

  /** The text of the last password change: absent, not a date, or a date in seconds. */
  datatype Mtime = Unset | Malformed | At(second: int)

  datatype Account = Account(
    enabled: bool,
    capabilities: seq<Capability>,
    passwordMtime: Mtime,
    passwordHash: string)

  datatype Contents = Contents(users: map<string, Account>, annotations: map<string, string>)

  datatype Op =
    | Create(user: string, password: string)
    | SetPassword(user: string, password: string, secure: bool)
    | Delete(user: string)

  datatype Outcome = Done | AlreadyExists | EmptyPassword | NotFound | Incorrect | Disabled | CannotLogin

  function InsecureKey(user: string): string { INSECURE_PREFIX + user }

  lemma InsecureKeyInjective(u: string, v: string)
    ensures InsecureKey(u) == InsecureKey(v) <==> u == v
  {
    assert InsecureKey(u)[|INSECURE_PREFIX|..] == u;
    assert InsecureKey(v)[|INSECURE_PREFIX|..] == v;
  }

  /** The second that time.Now().Format(time.RFC3339) records. */
  function SecondOf(nanos: int): int { nanos / NANOS_PER_SECOND }

  // ---------- the store as a value ----------

  function Write(c: Contents, user: string, account: Account, secure: bool): Contents {
    Contents(
      c.users[user := account],
      if secure then c.annotations - {InsecureKey(user)}
      else c.annotations[InsecureKey(user) := INSECURE_TRUE])
  }

  function NewAccount(hash: string, now: int): Account {
    Account(true, [Login], At(SecondOf(now)), hash)
  }

  function Changed(account: Account, hash: string, now: int): Account {
    account.(passwordHash := hash, passwordMtime := At(SecondOf(now)))
  }

  function Step(c: Contents, op: Op, now: int, hash: string -> string): (Contents, Outcome) {
    match op
    case Create(user, password) =>
      if user in c.users then (c, AlreadyExists)
      else if password == "" then (c, EmptyPassword)
      else (Write(c, user, NewAccount(hash(password), now), true), Done)
    case SetPassword(user, password, secure) =>
      if user !in c.users then (c, NotFound)
      else
        var stored := if secure then hash(password) else password;
        (Write(c, user, Changed(c.users[user], stored, now), secure), Done)
    case Delete(user) =>
      if user !in c.users then (c, NotFound)
      else (c.(users := c.users - {user}), Done)
  }

  predicate ComparesAsHash(c: Contents, user: string) {
    InsecureKey(user) !in c.annotations
  }

  function Verified(c: Contents, user: string, password: string, hash: string -> string): Outcome {
    if user !in c.users then NotFound
    else
      var provided := if ComparesAsHash(c, user) then hash(password) else password;
      if c.users[user].passwordHash == provided then Done else Incorrect
  }

  /** The checks of a login (Manager.Authenticate), in their order. */
  function Authenticated(c: Contents, user: string, password: string, hash: string -> string): Outcome {
    if password == "" then EmptyPassword
    else if Verified(c, user, password, hash) != Done then Verified(c, user, password, hash)
    else if !c.users[user].enabled then Disabled
    else if Login !in c.users[user].capabilities then CannotLogin
    else Done
  }

  predicate Secure(c: Contents, user: string) {
    InsecureKey(user) !in c.annotations || c.annotations[InsecureKey(user)] != INSECURE_TRUE
  }

  // ---------- the code, editing the Secret in place ----------

  class AccountsClient {
    var users: map<string, Account>
    var annotations: map<string, string>
    const hash: string -> string

    constructor (hash: string -> string)
      ensures Value() == Contents(map[], map[]) && this.hash == hash
    {
      this.hash := hash;
      users, annotations := map[], map[];
    }

    function Value(): Contents
      reads this
    {
      Contents(users, annotations)
    }

    method InsertOrUpdateAccount(username: string, account: Account, secure: bool)
      modifies this
      ensures Value() == Write(old(Value()), username, account, secure)
    {
      users := users[username := account];
      annotations := annotations - {InsecureKey(username)};
      if !secure {
        annotations := annotations[InsecureKey(username) := INSECURE_TRUE];
        assert annotations == old(annotations)[InsecureKey(username) := INSECURE_TRUE];
      }
    }

    method CreateAccount(username: string, password: string, now: int) returns (outcome: Outcome)
      modifies this
      ensures (Value(), outcome) == Step(old(Value()), Create(username, password), now, hash)
    {
      if username in users {
        return AlreadyExists;
      }
      if password == "" {
        return EmptyPassword;
      }
      InsertOrUpdateAccount(username, NewAccount(hash(password), now), true);
      return Done;
    }

    method SetAccountPassword(username: string, newPassword: string, secure: bool, now: int)
        returns (outcome: Outcome)
      modifies this
      ensures (Value(), outcome) == Step(old(Value()), SetPassword(username, newPassword, secure), now, hash)
    {
      if username !in users {
        return NotFound;
      }
      var user := users[username].(passwordHash := newPassword);
      if secure {
        user := user.(passwordHash := hash(newPassword));
      }
      user := user.(passwordMtime := At(SecondOf(now)));
      InsertOrUpdateAccount(username, user, secure);
      return Done;
    }

    method DeleteAccount(username: string, now: int) returns (outcome: Outcome)
      modifies this
      ensures (Value(), outcome) == Step(old(Value()), Delete(username), now, hash)
    {
      if username !in users {
        return NotFound;
      }
      users := users - {username};
      return Done;
    }

    method Verify(username: string, password: string) returns (outcome: Outcome)
      ensures outcome == Verified(Value(), username, password, hash)
    {
      if username !in users {
        return NotFound;
      }
      var actual, provided := users[username].passwordHash, password;
      if InsecureKey(username) !in annotations {
        provided := hash(password);
      }
      if actual != provided {
        return Incorrect;
      }
      return Done;
    }

    method IsSecure(username: string) returns (secure: bool)
      ensures secure == Secure(Value(), username)
    {
      if InsecureKey(username) !in annotations {
        return true;
      }
      return annotations[InsecureKey(username)] != INSECURE_TRUE;
    }
  }

  // ---------- refinement of a map from user to last password ----------

  /** What the store means: the last password set for each existing user, and the names
      whose last password write stored it in plain text, deleted names included. */
  datatype Meaning = Meaning(passwords: map<string, string>, plain: set<string>)

  function MeaningStep(m: Meaning, op: Op): (Meaning, Outcome) {
    match op
    case Create(user, password) =>
      if user in m.passwords then (m, AlreadyExists)
      else if password == "" then (m, EmptyPassword)
      else (Meaning(m.passwords[user := password], m.plain - {user}), Done)
    case SetPassword(user, password, secure) =>
      if user !in m.passwords then (m, NotFound)
      else (Meaning(m.passwords[user := password],
                    if secure then m.plain - {user} else m.plain + {user}), Done)
    case Delete(user) =>
      if user !in m.passwords then (m, NotFound)
      else (m.(passwords := m.passwords - {user}), Done)
  }

  datatype Event = Event(op: Op, at: int)

  function Run(c: Contents, events: seq<Event>, hash: string -> string): Contents
    decreases |events|
  {
    if events == [] then c
    else Run(Step(c, events[0].op, events[0].at, hash).0, events[1..], hash)
  }

  function RunMeaning(m: Meaning, events: seq<Event>): Meaning
    decreases |events|
  {
    if events == [] then m else RunMeaning(MeaningStep(m, events[0].op).0, events[1..])
  }

  ghost predicate Represents(c: Contents, m: Meaning, hash: string -> string) {
    && c.users.Keys == m.passwords.Keys
    && (forall u | u in m.passwords :: c.users[u].enabled && Login in c.users[u].capabilities)
    && (forall u | u in m.passwords ::
          c.users[u].passwordHash == if u in m.plain then m.passwords[u] else hash(m.passwords[u]))
    && (forall u {:trigger u in m.plain} {:trigger InsecureKey(u)} ::
          u in m.plain <==> InsecureKey(u) in c.annotations)
    && (forall k | k in c.annotations :: c.annotations[k] == INSECURE_TRUE)
  }

  lemma WriteRepresents(c: Contents, m: Meaning, user: string, account: Account, password: string,
                        secure: bool, hash: string -> string)
    requires Represents(c, m, hash)
    requires account.enabled && Login in account.capabilities
    requires account.passwordHash == if secure then hash(password) else password
    ensures Represents(Write(c, user, account, secure),
                       Meaning(m.passwords[user := password],
                               if secure then m.plain - {user} else m.plain + {user}), hash)
  {
    var c' := Write(c, user, account, secure);
    var plain := if secure then m.plain - {user} else m.plain + {user};
    forall u {:trigger u in plain} {:trigger InsecureKey(u)}
      ensures u in plain <==> InsecureKey(u) in c'.annotations
    {
      InsecureKeyInjective(u, user);
      assert u in m.plain <==> InsecureKey(u) in c.annotations;
    }
  }

  lemma StepRepresents(c: Contents, m: Meaning, op: Op, now: int, hash: string -> string)
    requires Represents(c, m, hash)
    ensures Represents(Step(c, op, now, hash).0, MeaningStep(m, op).0, hash)
    ensures Step(c, op, now, hash).1 == MeaningStep(m, op).1
  {
    match op
    case Create(user, password) =>
      WriteRepresents(c, m, user, NewAccount(hash(password), now), password, true, hash);
    case SetPassword(user, password, secure) =>
      if user in c.users {
        var stored := if secure then hash(password) else password;
        WriteRepresents(c, m, user, Changed(c.users[user], stored, now), password, secure, hash);
      }
    case Delete(user) =>
  }

  lemma {:induction false} RunRepresents(c: Contents, m: Meaning, events: seq<Event>, hash: string -> string)
    requires Represents(c, m, hash)
    ensures Represents(Run(c, events, hash), RunMeaning(m, events), hash)
    decreases |events|
  {
    if events != [] {
      StepRepresents(c, m, events[0].op, events[0].at, hash);
      RunRepresents(Step(c, events[0].op, events[0].at, hash).0, MeaningStep(m, events[0].op).0,
                    events[1..], hash);
    }
  }

  ghost predicate Injective(hash: string -> string) {
    forall p, q :: hash(p) == hash(q) ==> p == q
  }

  /** After any sequence of operations on the empty store, Verify accepts exactly the last
      password set for an existing user, a login the same unless it is blank, an existing
      user's password is compared in the form that IsSecure reports, and the next operation
      has the outcome that the plain map gives it. */
  lemma StoreRefinesPasswordMap(events: seq<Event>, hash: string -> string,
                                user: string, password: string, next: Op, now: int)
    requires Injective(hash)
    ensures var c := Run(Contents(map[], map[]), events, hash);
            var m := RunMeaning(Meaning(map[], {}), events);
      && (Verified(c, user, password, hash) == Done <==> user in m.passwords && m.passwords[user] == password)
      && (Verified(c, user, password, hash) == NotFound <==> user !in m.passwords)
      && (Authenticated(c, user, password, hash) == Done <==>
            password != "" && user in m.passwords && m.passwords[user] == password)
      && (Secure(c, user) <==> user !in m.plain)
      && (Secure(c, user) <==> ComparesAsHash(c, user))
      && Step(c, next, now, hash).1 == MeaningStep(m, next).1
  {
    var c := Run(Contents(map[], map[]), events, hash);
    var m := RunMeaning(Meaning(map[], {}), events);
    RunRepresents(Contents(map[], map[]), Meaning(map[], {}), events, hash);
    StepRepresents(c, m, next, now, hash);
    assert user in m.plain <==> InsecureKey(user) in c.annotations;
  }

  /** A login succeeds exactly with a non-blank password that matches what is stored, in the
      form that the mark calls for, on an account that is enabled and may log in. Each
      refusal is the first of these to fail. */
  lemma LoginExactly(c: Contents, user: string, password: string, hash: string -> string)
    ensures
      var outcome := Authenticated(c, user, password, hash);
      var matches := user in c.users
        && c.users[user].passwordHash == if InsecureKey(user) in c.annotations then password else hash(password);
      && (outcome == EmptyPassword <==> password == "")
      && (outcome == NotFound <==> password != "" && user !in c.users)
      && (outcome == Incorrect <==> password != "" && user in c.users && !matches)
      && (outcome == Disabled <==> password != "" && matches && !c.users[user].enabled)
      && (outcome == CannotLogin <==>
            password != "" && matches && c.users[user].enabled && Login !in c.users[user].capabilities)
      && (outcome == Done <==>
            password != "" && matches && c.users[user].enabled && Login in c.users[user].capabilities)
  {
  }

  predicate Recreates(op: Op, user: string) {
    op.Create? && op.user == user && op.password != ""
  }

  predicate Mark(c: Contents, user: string) {
    InsecureKey(user) in c.annotations
  }

  lemma {:induction false} AbsentKeepsMark(c: Contents, events: seq<Event>, user: string, hash: string -> string)
    requires user !in c.users
    requires forall e | e in events :: !Recreates(e.op, user)
    ensures var after := Run(c, events, hash);
      user !in after.users && Mark(after, user) == Mark(c, user) && Secure(after, user) == Secure(c, user)
    decreases |events|
  {
    if events != [] {
      InsecureKeyInjective(events[0].op.user, user);
      AbsentKeepsMark(Step(c, events[0].op, events[0].at, hash).0, events[1..], user, hash);
    }
  }

  /** A deleted account keeps its plain-text mark, or its lack of one, through any
      operations that do not re-create it. Re-creating it then succeeds and clears the
      mark. */
  lemma StaleMarkUntilRecreated(c: Contents, deleted: int, events: seq<Event>, user: string, password: string,
                                recreated: int, hash: string -> string)
    requires user in c.users && password != ""
    requires forall e | e in events :: !Recreates(e.op, user)
    ensures var before := Run(Step(c, Delete(user), deleted, hash).0, events, hash);
            var after := Step(before, Create(user, password), recreated, hash);
      && user !in before.users
      && Mark(before, user) == Mark(c, user) && Secure(before, user) == Secure(c, user)
      && after.1 == Done && !Mark(after.0, user) && Secure(after.0, user)
  {
    AbsentKeepsMark(Step(c, Delete(user), deleted, hash).0, events, user, hash);
  }

  // ---------- password changes revoke tokens ----------

  datatype SessionError = BadPasswordMtime | NoIssueTime | NoSubject | NoIssuer | NoTokenId | NoExpiry

  /** isBuiltInUserBlocked: the account is gone, or the token was issued in a second
      before that of the last password change. */
  function BlockedByAccount(c: Contents, user: string, issuedAt: Option<int>): Result<bool, SessionError> {
    if user !in c.users then Ok(true)
    else
      match c.users[user].passwordMtime
      case Unset => Ok(false)
      case Malformed => Err(BadPasswordMtime)
      case At(second) =>
        if issuedAt.None? then Err(NoIssueTime) else Ok(issuedAt.value < second)
  }

  ghost predicate NonDecreasing(events: seq<Event>) {
    forall i, j | 0 <= i < j < |events| :: events[i].at <= events[j].at
  }

  lemma StepKeepsBlocked(c: Contents, e: Event, user: string, issuedAt: int, hash: string -> string)
    requires BlockedByAccount(c, user, Some(issuedAt)) == Ok(true)
    requires SecondOf(e.at) > issuedAt
    ensures BlockedByAccount(Step(c, e.op, e.at, hash).0, user, Some(issuedAt)) == Ok(true)
  {
  }

  lemma {:induction false} RunKeepsBlocked(c: Contents, events: seq<Event>, user: string, issuedAt: int,
                                           hash: string -> string)
    requires BlockedByAccount(c, user, Some(issuedAt)) == Ok(true)
    requires forall e | e in events :: SecondOf(e.at) > issuedAt
    ensures BlockedByAccount(Run(c, events, hash), user, Some(issuedAt)) == Ok(true)
    decreases |events|
  {
    if events != [] {
      StepKeepsBlocked(c, events[0], user, issuedAt, hash);
      RunKeepsBlocked(Step(c, events[0].op, events[0].at, hash).0, events[1..], user, issuedAt, hash);
    }
  }

  lemma {:induction false} RunConcat(c: Contents, a: seq<Event>, b: seq<Event>, hash: string -> string)
    ensures Run(c, a + b, hash) == Run(Run(c, a, hash), b, hash)
    decreases |a|
  {
    if a == [] {
      assert a + b == b;
    } else {
      assert (a + b)[1..] == a[1..] + b;
      RunConcat(Step(c, a[0].op, a[0].at, hash).0, a[1..], b, hash);
    }
  }

  lemma SecondsMonotone(a: int, b: int)
    requires a <= b
    ensures SecondOf(a) <= SecondOf(b)
  {
  }

  /** A password written, or an account deleted, in a second after the token's issue
      time revokes the token for good: through any later changes of password, deletions
      and re-creations. */
  lemma AccountChangeRevokesForGood(c: Contents, change: Event, after: seq<Event>, user: string,
                                    issuedAt: int, hash: string -> string)
    requires change.op.user == user && Step(c, change.op, change.at, hash).1 == Done
    requires SecondOf(change.at) > issuedAt
    requires NonDecreasing([change] + after)
    ensures BlockedByAccount(Run(c, [change] + after, hash), user, Some(issuedAt)) == Ok(true)
  {
    assert ([change] + after)[1..] == after;
    forall e | e in after
      ensures SecondOf(e.at) > issuedAt
    {
      var i :| 0 <= i < |after| && after[i] == e;
      assert ([change] + after)[i + 1] == e && ([change] + after)[0] == change;
      SecondsMonotone(change.at, e.at);
    }
    RunKeepsBlocked(Step(c, change.op, change.at, hash).0, after, user, issuedAt, hash);
  }

  /** In every later state of a run from the empty store the token stays blocked. */
  lemma RevokedInEveryLaterState(before: seq<Event>, change: Event, after: seq<Event>, user: string, issuedAt: int,
                                 hash: string -> string)
    requires change.op.user == user && SecondOf(change.at) > issuedAt
    requires Step(Run(Contents(map[], map[]), before, hash), change.op, change.at, hash).1 == Done
    requires NonDecreasing([change] + after)
    ensures
      BlockedByAccount(Run(Contents(map[], map[]), before + ([change] + after), hash), user, Some(issuedAt)) == Ok(true)
  {
    RunConcat(Contents(map[], map[]), before, [change] + after, hash);
    AccountChangeRevokesForGood(Run(Contents(map[], map[]), before, hash), change, after, user, issuedAt, hash);
  }

  /** A token issued before a password change (or a re-creation of its account) is blocked
      by it exactly when the two fall in different seconds: within one second the change
      does not revoke the token. */
  lemma ChangeRevokesAcrossSeconds(c: Contents, op: Op, issued: int, changed: int, hash: string -> string)
    requires !op.Delete? && Step(c, op, changed, hash).1 == Done
    requires issued <= changed
    ensures BlockedByAccount(Step(c, op, changed, hash).0, op.user, Some(SecondOf(issued))) == Ok(true)
       <==> SecondOf(issued) != SecondOf(changed)
  {
    SecondsMonotone(issued, changed);
  }

  /** A change half a second after the issue: the old token stays valid. */
  lemma SameSecondExample(hash: string -> string)
    ensures var c := Contents(map["u" := NewAccount(hash("old"), 0)], map[]);
            var issued, changed := 5_100_000_000, 5_600_000_000;
            var after := Step(c, SetPassword("u", "new", true), changed, hash).0;
      issued < changed && BlockedByAccount(after, "u", Some(SecondOf(issued))) == Ok(false)
  {
  }
}
