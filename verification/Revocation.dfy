/** Any number of servers revoking tokens at once: every interleaving of the read,
    compute and conditional-write steps of Add, with retries (pkg/session/token_store.go,
    pkg/session/blocklist.go). */
module Revocation {
  import opened Wrappers
  import opened Strings
  import opened Integers
  import opened TokenStore

  /** Where one server is in its call of Block. */
  datatype Phase =
    | Idle
    | Reading(token: string, attempt: nat)
    | Holding(token: string, attempt: nat, version: nat)
    | Writing(token: string, attempt: nat, version: nat, list: string, computedAt: int)
    | Succeeded(token: string)
    | Failed(token: string)

  /** versions holds the value of the list in every version of the Secret, the last
      being current; granted are the tokens whose Block returned without an error and
      submitted those any server tried to revoke. */
  datatype State = State(
    versions: seq<Option<string>>,
    clock: int,
    servers: map<nat, Phase>,
    submitted: set<string>,
    granted: set<string>)

  datatype Action =
    | Tick(elapsed: nat)
    | StartBlock(server: nat, token: string)
    | Get(server: nat, version: nat)    // a cached read may return an old version
    | GetError(server: nat)
    | Compute(server: nat)
    | Put(server: nat)
    | PutError(server: nat, landed: bool)   // the reply is an error; the write may have landed
    | Cancel(server: nat)                   // the request's context ends between two attempts

  predicate Initial(s: State) {
    |s.versions| >= 1 && s.servers == map[] && s.submitted == {} && s.granted == {}
  }

  function PhaseOf(s: State, server: nat): Phase {
    if server in s.servers then s.servers[server] else Idle
  }

  function Current(s: State): Option<string>
    requires |s.versions| >= 1
  {
    s.versions[|s.versions| - 1]
  }

  /** After an error: try again, unless the retries are used up. */
  function Retry(s: State, server: nat, token: string, attempt: nat): State {
    s.(servers := s.servers[server :=
      if attempt <= MAX_RETRIES then Reading(token, attempt + 1) else Failed(token)])
  }

  predicate WriteLands(s: State, w: Phase) {
    w.Writing? && w.version == |s.versions| - 1
  }

  /** One step. An action that does not fit the phase of its server changes nothing. */
  function Apply(s: State, a: Action): State {
    match a
    case Tick(elapsed) =>
      s.(clock := s.clock + elapsed)
    case StartBlock(p, token) =>
      var ph := PhaseOf(s, p);
      if ph.Idle? || ph.Succeeded? || ph.Failed?
      then s.(servers := s.servers[p := Reading(token, 1)], submitted := s.submitted + {token})
      else s
    case Get(p, version) =>
      var ph := PhaseOf(s, p);
      if ph.Reading? && version < |s.versions|
      then s.(servers := s.servers[p := Holding(ph.token, ph.attempt, version)])
      else s
    case GetError(p) =>
      var ph := PhaseOf(s, p);
      if ph.Reading? then Retry(s, p, ph.token, ph.attempt) else s
    case Compute(p) =>
      var ph := PhaseOf(s, p);
      if ph.Holding? && ph.version < |s.versions|
      then s.(servers := s.servers[p :=
             Writing(ph.token, ph.attempt, ph.version,
                     AddToken(s.versions[ph.version], ph.token, s.clock), s.clock)])
      else s
    case Put(p) =>
      var ph := PhaseOf(s, p);
      if !ph.Writing? then s
      else if WriteLands(s, ph)
      then s.(versions := s.versions + [Some(ph.list)],
              servers := s.servers[p := Succeeded(ph.token)],
              granted := s.granted + {ph.token})
      else Retry(s, p, ph.token, ph.attempt)
    case PutError(p, landed) =>
      var ph := PhaseOf(s, p);
      if !ph.Writing? then s
      else if landed && WriteLands(s, ph)
      then Retry(s.(versions := s.versions + [Some(ph.list)]), p, ph.token, ph.attempt)
      else Retry(s, p, ph.token, ph.attempt)
    case Cancel(p) =>
      var ph := PhaseOf(s, p);
      if ph.Reading? && ph.attempt > 1 then s.(servers := s.servers[p := Failed(ph.token)]) else s
  }

  function Run(s: State, actions: seq<Action>): State
    decreases |actions|
  {
    if actions == [] then s else Run(Apply(s, actions[0]), actions[1..])
  }

  lemma {:induction false} RunConcat(s: State, a: seq<Action>, b: seq<Action>)
    ensures Run(s, a + b) == Run(Run(s, a), b)
    decreases |a|
  {
    if a == [] {
      assert a + b == b;
    } else {
      assert (a + b)[1..] == a[1..] + b;
      RunConcat(Apply(s, a[0]), a[1..], b);
    }
  }

  // ---------- what every step keeps ----------

  ghost predicate PhaseOk(s: State, ph: Phase) {
    match ph
    case Reading(token, attempt) =>
      1 <= attempt <= MAX_RETRIES + 1 && token in s.submitted
    case Holding(token, attempt, version) =>
      1 <= attempt <= MAX_RETRIES + 1 && token in s.submitted && version < |s.versions|
    case Writing(token, attempt, version, list, computedAt) =>
      && 1 <= attempt <= MAX_RETRIES + 1 && token in s.submitted
      && version < |s.versions| && computedAt <= s.clock
      && list == AddToken(s.versions[version], token, computedAt)
    case Succeeded(token) => token in s.granted
    case _ => true
  }

  /** A granted token without commas is an element of the current list until the
      instant that garbage collection reads from it. */
  ghost predicate Remembered(s: State, token: string)
    requires |s.versions| >= 1
  {
    SEP !in token && Live(token, s.clock) ==> token in Elements(Current(s))
  }

  ghost predicate Inv(s: State) {
    && |s.versions| >= 1
    && s.granted <= s.submitted
    && (forall p | p in s.servers :: PhaseOk(s, s.servers[p]))
    && (forall t | t in s.granted :: Remembered(s, t))
  }

  ghost predicate Grows(s: State, s': State) {
    s.versions <= s'.versions && s.clock <= s'.clock
    && s.submitted <= s'.submitted && s.granted <= s'.granted
  }

  lemma PhaseStaysOk(s: State, s': State, ph: Phase)
    requires PhaseOk(s, ph) && Grows(s, s')
    ensures PhaseOk(s', ph)
  {
  }

  lemma StepGrows(s: State, a: Action)
    ensures Grows(s, Apply(s, a))
  {
  }

  /** A step moves no server but its own, and leaves that one in a proper phase. */
  lemma StepPhases(s: State, a: Action)
    requires Inv(s)
    ensures var s' := Apply(s, a);
      forall p | p in s'.servers :: PhaseOk(s', s'.servers[p])
  {
    var s' := Apply(s, a);
    StepGrows(s, a);
    forall p | p in s'.servers
      ensures PhaseOk(s', s'.servers[p])
    {
      if !a.Tick? && p == a.server {
        assert PhaseOk(s, PhaseOf(s, p));
      } else {
        PhaseStaysOk(s, s', s.servers[p]);
      }
    }
  }

  /** A write on top of the current version keeps every token that is still live. */
  lemma LandingRemembers(s: State, w: Phase, t: string)
    requires |s.versions| >= 1 && PhaseOk(s, w) && WriteLands(s, w)
    requires Remembered(s, t) || t == w.token
    ensures SEP !in t && Live(t, s.clock) ==> t in Elements(Some(w.list))
  {
    if SEP !in t && Live(t, s.clock) {
      assert w.list == AddToken(Current(s), w.token, w.computedAt);
      AddRemembers(Current(s), w.token, t, w.computedAt, s.clock);
    }
  }

  lemma StepVersions(s: State, a: Action)
    requires |s.versions| >= 1
    ensures var s' := Apply(s, a);
      || (s'.versions == s.versions && s'.granted == s.granted)
      || (!a.Tick? && s'.clock == s.clock && var w := PhaseOf(s, a.server);
          && WriteLands(s, w) && s'.versions == s.versions + [Some(w.list)]
          && s'.granted <= s.granted + {w.token})
  {
  }

  lemma StepRemembers(s: State, a: Action, t: string)
    requires Inv(s)
    requires t in Apply(s, a).granted
    ensures |Apply(s, a).versions| >= 1 && Remembered(Apply(s, a), t)
  {
    var s' := Apply(s, a);
    StepGrows(s, a);
    StepVersions(s, a);
    if s'.versions != s.versions {
      var w := PhaseOf(s, a.server);
      LandingRemembers(s, w, t);
      assert Current(s') == Some(w.list);
    } else {
      assert Current(s') == Current(s);
    }
  }

  lemma StepKeepsInv(s: State, a: Action)
    requires Inv(s)
    ensures Inv(Apply(s, a))
  {
    var s' := Apply(s, a);
    StepGrows(s, a);
    StepPhases(s, a);
    StepGranted(s, a);
    forall t | t in s'.granted
      ensures Remembered(s', t)
    {
      StepRemembers(s, a, t);
    }
  }

  lemma StepGranted(s: State, a: Action)
    requires Inv(s)
    ensures Apply(s, a).granted <= Apply(s, a).submitted
  {
    if a.Put? && PhaseOf(s, a.server).Writing? {
      assert PhaseOk(s, s.servers[a.server]);
    }
  }

  lemma {:induction false} RunKeepsInv(s: State, actions: seq<Action>)
    requires Inv(s)
    ensures Inv(Run(s, actions))
    decreases |actions|
  {
    if actions != [] {
      StepKeepsInv(s, actions[0]);
      RunKeepsInv(Apply(s, actions[0]), actions[1..]);
    }
  }

  lemma {:induction false} RunGrows(s: State, actions: seq<Action>)
    ensures Grows(s, Run(s, actions))
    decreases |actions|
  {
    if actions != [] {
      StepGrows(s, actions[0]);
      RunGrows(Apply(s, actions[0]), actions[1..]);
    }
  }

  /** An error at one of the first ten attempts leads to the next attempt; a server gives up
      only at an error of the eleventh or when the request is cancelled between two. */
  lemma GivesUpAfterEleven(s0: State, actions: seq<Action>, a: Action)
    requires Initial(s0) && !a.Tick?
    ensures
      var s := Run(s0, actions);
      var ph, ph' := PhaseOf(s, a.server), PhaseOf(Apply(s, a), a.server);
      && (ph'.Failed? && !ph.Failed? ==> a.Cancel? || ((ph.Reading? || ph.Writing?) && ph.attempt == 11))
      && (a.GetError? && ph.Reading? && ph.attempt <= 10 ==> ph' == Reading(ph.token, ph.attempt + 1))
      && (a.Put? && ph.Writing? && !WriteLands(s, ph) && ph.attempt <= 10 ==>
            ph' == Reading(ph.token, ph.attempt + 1))
      && (a.PutError? && ph.Writing? && ph.attempt <= 10 ==> ph' == Reading(ph.token, ph.attempt + 1))
  {
    var s := Run(s0, actions);
    RunKeepsInv(s0, actions);
    if a.server in s.servers {
      assert PhaseOk(s, s.servers[a.server]);
    }
  }

  // ---------- no lost revocation ----------

  /** Once a Block of a comma-free token has succeeded, in whatever interleaving, every
      later state up to the token's stamp lists it and the lookup finds it. */
  lemma NoLostRevocation(s0: State, before: seq<Action>, after: seq<Action>, token: string)
    requires Initial(s0)
    requires token in Run(s0, before).granted
    requires SEP !in token
    requires Live(token, Run(s0, before + after).clock)
    ensures var s := Run(s0, before + after);
      && |s.versions| >= 1
      && token in Elements(Current(s))
      && Listed(Current(s), token)
  {
    var s := Run(s0, before + after);
    RunConcat(s0, before, after);
    RunGrows(Run(s0, before), after);
    RunKeepsInv(s0, before + after);
    var list := Current(s).value;
    LookupExact(list, token);
    ContainsSameLength(token, token);
  }

  // ---------- nothing else is revoked ----------

  /** The element was there from the start or is (part of) a token that some server
      was asked to revoke. */
  ghost predicate Explained(origin: seq<Option<string>>, submitted: set<string>, element: string) {
    (exists list | list in origin :: element in Elements(list))
    || (exists t | t in submitted :: element in Split(t))
  }

  ghost predicate AllExplained(s: State, origin: seq<Option<string>>) {
    forall list, e | list in s.versions && e in Elements(list) :: Explained(origin, s.submitted, e)
  }

  lemma StepKeepsExplained(s: State, a: Action, origin: seq<Option<string>>)
    requires Inv(s) && AllExplained(s, origin)
    ensures AllExplained(Apply(s, a), origin)
  {
    var s' := Apply(s, a);
    StepGrows(s, a);
    StepVersions(s, a);
    forall list, e | list in s'.versions && e in Elements(list)
      ensures Explained(origin, s'.submitted, e)
    {
      if list in s.versions {
        assert Explained(origin, s.submitted, e);
      } else {
        var w := PhaseOf(s, a.server);
        ElementsAfterAdd(Current(s), w.token, w.computedAt);
        assert PhaseOk(s, w);
        if e !in Split(w.token) {
          assert Current(s) in s.versions && e in Elements(Current(s));
        }
      }
    }
  }

  lemma {:induction false} RunKeepsExplained(s: State, actions: seq<Action>, origin: seq<Option<string>>)
    requires Inv(s) && AllExplained(s, origin)
    ensures AllExplained(Run(s, actions), origin)
    decreases |actions|
  {
    if actions != [] {
      StepKeepsInv(s, actions[0]);
      StepKeepsExplained(s, actions[0], origin);
      RunKeepsExplained(Apply(s, actions[0]), actions[1..], origin);
    }
  }

  /** In every reachable state a comma-free token that the lookup reports as revoked is
      a substring of an element that was in the Secret from the start, or of a token
      submitted for revocation. */
  lemma OnlyRevokedListed(s0: State, actions: seq<Action>, token: string)
    requires Initial(s0)
    requires SEP !in token
    requires var s := Run(s0, actions); |s.versions| >= 1 && Listed(Current(s), token)
    ensures exists e :: Explained(s0.versions, Run(s0, actions).submitted, e) && Contains(e, token)
  {
    var s := Run(s0, actions);
    RunKeepsExplained(s0, actions, s0.versions);
    LookupExact(Current(s).value, token);
    var e :| e in Elements(Current(s)) && Contains(e, token);
    assert Current(s) in s.versions;
    assert Explained(s0.versions, s.submitted, e);
  }

  // ---------- what a write collects ----------

  /** In every reachable state, a write that lands on an existing list keeps, of the tokens
      with a ten-digit expiry that were there, exactly the ones that had not expired at the
      instant of its clean-up, and adds none but its own. */
  lemma WriteCollectsExactly(s0: State, actions: seq<Action>, a: Action, id: string, exp: nat)
    requires Initial(s0) && TenDigits(exp)
    requires var s := Run(s0, actions);
      && |s.versions| >= 1 && Current(s).Some?
      && !a.Tick? && Apply(s, a).versions != s.versions
      && ShortenToken(id, exp) !in Split(PhaseOf(s, a.server).token)
    ensures var s, token := Run(s0, actions), ShortenToken(id, exp);
      && |Apply(s, a).versions| >= 1
      && (token in Elements(Current(Apply(s, a)))
          <==> token in Elements(Current(s)) && PhaseOf(s, a.server).computedAt < exp * NANOS_PER_SECOND)
  {
    var s := Run(s0, actions);
    var w := PhaseOf(s, a.server);
    RunKeepsInv(s0, actions);
    LandedList(s, a);
    WriteCollects(Current(s), w.token, w.computedAt, id, exp);
  }

  lemma LandedList(s: State, a: Action)
    requires Inv(s) && !a.Tick? && Apply(s, a).versions != s.versions
    ensures var w := PhaseOf(s, a.server);
      && w.Writing? && |Apply(s, a).versions| >= 1
      && Current(Apply(s, a)) == Some(AddToken(Current(s), w.token, w.computedAt))
  {
    StepVersions(s, a);
    var w := PhaseOf(s, a.server);
    assert PhaseOk(s, w);
  }

  lemma WriteCollects(previous: Option<string>, token: string, now: int, id: string, exp: nat)
    requires TenDigits(exp) && ShortenToken(id, exp) !in Split(token)
    ensures ShortenToken(id, exp) in Elements(Some(AddToken(previous, token, now)))
       <==> ShortenToken(id, exp) in Elements(previous) && now < exp * NANOS_PER_SECOND
  {
    ElementsAfterAdd(previous, token, now);
    Collected(Elements(previous), now);
  }

  /** The instant of the clean-up is that of the computation: between the read and the write
      of the same attempt. */
  lemma ComputedNow(s: State, server: nat)
    requires PhaseOf(s, server).Holding? && PhaseOf(s, server).version < |s.versions|
    ensures var w := PhaseOf(Apply(s, Compute(server)), server);
      w.Writing? && w.computedAt == s.clock && w.version == PhaseOf(s, server).version
  {
  }

  // ---------- how long a token is kept ----------

  /** In every run, a token whose Block has succeeded is found until the given instant. */
  ghost predicate KeptUntil(token: string, until: int) {
    forall s0, before, after |
      && Initial(s0)
      && token in Run(s0, before).granted
      && Run(s0, before + after).clock < until ::
      |Run(s0, before + after).versions| >= 1 && Listed(Current(Run(s0, before + after)), token)
  }

  /** One server adding a token alone. */
  function AddAlone(server: nat, version: nat, token: string): seq<Action> {
    [StartBlock(server, token), Get(server, version), Compute(server), Put(server)]
  }

  lemma RunCons(s: State, a: Action, rest: seq<Action>)
    ensures Run(s, [a] + rest) == Run(Apply(s, a), rest)
  {
    assert ([a] + rest)[1..] == rest;
  }

  lemma ReadRuns(s: State, server: nat, version: nat, token: string)
    requires |s.versions| == version + 1
    requires PhaseOf(s, server).Idle? || PhaseOf(s, server).Succeeded?
    ensures var s' := Run(s, [StartBlock(server, token), Get(server, version)]);
      && s'.versions == s.versions && s'.clock == s.clock
      && PhaseOf(s', server) == Holding(token, 1, version)
  {
    var s1 := Apply(s, StartBlock(server, token));
    RunCons(s1, Get(server, version), []);
    RunCons(s, StartBlock(server, token), [Get(server, version)]);
  }

  lemma WriteLandsAlone(s: State, server: nat, token: string, list: string)
    requires |s.versions| >= 1
    requires PhaseOf(s, server) == Writing(token, 1, |s.versions| - 1, list, s.clock)
    ensures var s' := Apply(s, Put(server));
      && s'.versions == s.versions + [Some(list)] && s'.clock == s.clock
      && token in s'.granted && PhaseOf(s', server) == Succeeded(token)
  {
  }

  lemma WriteRuns(s: State, server: nat, token: string)
    requires |s.versions| >= 1 && PhaseOf(s, server) == Holding(token, 1, |s.versions| - 1)
    ensures var s' := Run(s, [Compute(server), Put(server)]);
      && s'.versions == s.versions + [Some(AddToken(Current(s), token, s.clock))]
      && s'.clock == s.clock
      && token in s'.granted
      && PhaseOf(s', server).Succeeded?
  {
    var s1 := Apply(s, Compute(server));
    WriteLandsAlone(s1, server, token, AddToken(Current(s), token, s.clock));
    RunCons(s1, Put(server), []);
    RunCons(s, Compute(server), [Put(server)]);
  }

  lemma AddAloneRuns(s: State, server: nat, version: nat, token: string)
    requires |s.versions| == version + 1
    requires PhaseOf(s, server).Idle? || PhaseOf(s, server).Succeeded?
    ensures var s' := Run(s, AddAlone(server, version, token));
      && s'.versions == s.versions + [Some(AddToken(Current(s), token, s.clock))]
      && s'.clock == s.clock
      && token in s'.granted
      && PhaseOf(s', server).Succeeded?
  {
    var read, write := [StartBlock(server, token), Get(server, version)], [Compute(server), Put(server)];
    assert AddAlone(server, version, token) == read + write;
    RunConcat(s, read, write);
    ReadRuns(s, server, version, token);
    WriteRuns(Run(s, read), server, token);
  }

  lemma AddToEmptyList(token: string, now: int)
    ensures AddToken(Some(""), token, now) == token
  {
    assert KeepLive([""], now) == [];
    assert [] + [token] == [token];
  }

  lemma AddAfterExpired(expired: string, token: string, now: int)
    requires SEP !in expired && !Live(expired, now)
    ensures AddToken(Some(expired), token, now) == token
  {
    SplitOne(expired);
    assert KeepLive([expired], now) == [];
    assert [] + [token] == [token];
  }

  lemma ExpiryLength(exp: nat)
    ensures exp >= Pow10(10) ==> |FormatNat(exp)| >= 11
    ensures Pow10(9) <= exp < Pow10(10) ==> |FormatNat(exp)| == 10
  {
    DigitCount(exp, 10);
    DigitCount(exp, 11);
  }

  lemma CommaFreeShortened(id: string, exp: nat)
    requires SEP !in id
    ensures SEP !in ShortenToken(id, exp)
  {
  }

  /** Blocking another token once the first is past its stamp leaves only the other. */
  lemma ReplacedRun(token: string, other: string, now: int)
    requires SEP !in token && !Live(token, now)
    requires |token| > |other|
    ensures var s0 := State([Some("")], now, map[], {}, {});
            var before, after := AddAlone(0, 0, token), AddAlone(0, 1, other);
            var s2 := Run(s0, before + after);
      && token in Run(s0, before).granted
      && s2.clock == now
      && |s2.versions| >= 1 && !Listed(Current(s2), token)
  {
    var s0 := State([Some("")], now, map[], {}, {});
    var before, after := AddAlone(0, 0, token), AddAlone(0, 1, other);
    var s1 := Run(s0, before);
    AddAloneRuns(s0, 0, 0, token);
    AddToEmptyList(token, now);
    AddAloneRuns(s1, 0, 1, other);
    AddAfterExpired(token, other, now);
    RunConcat(s0, before, after);
  }

  lemma NotKept(s0: State, before: seq<Action>, after: seq<Action>, token: string, until: int)
    requires Initial(s0)
    requires token in Run(s0, before).granted
    requires var s := Run(s0, before + after);
      s.clock < until && |s.versions| >= 1 && !Listed(Current(s), token)
    ensures !KeptUntil(token, until)
  {
  }

  lemma PastItsStamp(id: string, exp: nat)
    requires exp >= Pow10(10)
    ensures var now := (exp % Pow10(10)) * NANOS_PER_SECOND;
      now < exp * NANOS_PER_SECOND && !Live(ShortenToken(id, exp), now)
  {
    assert Pow10(10) == 10 * Pow10(9);
    StampOfShortened(id, exp);
  }

  /** A token whose last ten digits say less than its expiry is dropped too early: this
      run blocks it, then blocks another token, and the first one is no longer found. */
  lemma DroppedEarly(id: string, exp: nat)
    requires SEP !in id && id != ""
    requires exp >= Pow10(10)
    ensures !KeptUntil(ShortenToken(id, exp), exp * NANOS_PER_SECOND)
  {
    var soonest: nat := Pow10(9);
    var token, other := ShortenToken(id, exp), ShortenToken("x", soonest);
    var now := (exp % Pow10(10)) * NANOS_PER_SECOND;
    CommaFreeShortened(id, exp);
    PastItsStamp(id, exp);
    ExpiryLength(exp);
    ExpiryLength(soonest);
    ReplacedRun(token, other, now);
    NotKept(State([Some("")], now, map[], {}, {}), AddAlone(0, 0, token), AddAlone(0, 1, other),
            token, exp * NANOS_PER_SECOND);
  }

  /** Tokens that expire from September 2001 on are kept until they expire, in every
      run, exactly when the expiry has no more than ten digits. */
  lemma KeptUntilExpiry(id: string, exp: nat)
    requires SEP !in id && id != ""
    requires exp >= Pow10(9)
    ensures KeptUntil(ShortenToken(id, exp), exp * NANOS_PER_SECOND) <==> exp < Pow10(10)
  {
    var token := ShortenToken(id, exp);
    if exp >= Pow10(10) {
      DroppedEarly(id, exp);
    } else {
      forall s0, before, after |
        && Initial(s0)
        && token in Run(s0, before).granted
        && Run(s0, before + after).clock < exp * NANOS_PER_SECOND
        ensures |Run(s0, before + after).versions| >= 1
             && Listed(Current(Run(s0, before + after)), token)
      {
        LiveUntilExpiry(id, exp, Run(s0, before + after).clock);
        NoLostRevocation(s0, before, after, token);
      }
    }
  }

  // ---------- the code's Add is a run of the protocol ----------

  /** The value of the list in every version of the Secret. */
  function Lists(versions: seq<Data>): (lists: seq<Option<string>>)
    ensures |lists| == |versions|
  {
    if versions == [] then []
    else Lists(versions[..|versions| - 1]) + [ListOf(versions[|versions| - 1])]
  }

  lemma {:induction false} ListsAt(versions: seq<Data>, i: nat)
    requires i < |versions|
    ensures Lists(versions)[i] == ListOf(versions[i])
  {
    if i < |versions| - 1 {
      ListsAt(versions[..|versions| - 1], i);
    }
  }

  /** From s these actions end in the given versions with the token granted. */
  ghost predicate Explains(s: State, actions: seq<Action>, versions: seq<Data>, token: string, to: int) {
    var s' := Run(s, actions);
    s'.versions == Lists(versions) && token in s'.granted && s.clock <= s'.clock <= to
  }

  function AddActions(server: nat, token: string, version: nat, elapsed: nat): seq<Action> {
    [Tick(elapsed)] + AddAlone(server, version, token)
  }

  lemma RunOfAdd(s: State, server: nat, token: string, elapsed: nat)
    requires |s.versions| >= 1 && PhaseOf(s, server).Idle?
    ensures
      var s' := Run(s, AddActions(server, token, |s.versions| - 1, elapsed));
      && s'.versions == s.versions + [Some(AddToken(Current(s), token, s.clock + elapsed))]
      && s'.clock == s.clock + elapsed
      && token in s'.granted
  {
    RunCons(s, Tick(elapsed), AddAlone(server, |s.versions| - 1, token));
    AddAloneRuns(Apply(s, Tick(elapsed)), server, |s.versions| - 1, token);
  }

  /** What Store.Add promises of a successful call is what the protocol does: the versions
      it leaves are those of a run in which some server reads, computes and writes. */
  lemma SuccessfulAddIsARun(s: State, server: nat, versions: seq<Data>, token: string, from: int, to: int)
    requires LastWriteAdds(versions, token, from, to) && s.clock <= from
    requires s.versions == Lists(versions[..|versions| - 1]) && PhaseOf(s, server).Idle?
    ensures exists actions :: Explains(s, actions, versions, token, to)
  {
    var n := |versions|;
    var previous, latest := versions[n - 2], versions[n - 1];
    assert AddsWithin(previous, latest, token, from, to);
    var now :| from <= now <= to && Adds(previous, latest, token, now);
    ListsAt(versions[..n - 1], n - 2);
    RunOfAdd(s, server, token, now - s.clock);
    assert Explains(s, AddActions(server, token, n - 2, now - s.clock), versions, token, to);
  }
}
