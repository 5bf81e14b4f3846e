/** The serialized blocklist of logged-out tokens (pkg/session/token_store.go and
    pkg/session/blocklist.go): one comma-joined string under the key "list" of a Secret. */
module TokenStore {
  import opened Wrappers
  import opened Strings
  import opened Integers

  const DATA_KEY := "list"
  const TIMESTAMP_LEN := 10
  const MAX_RETRIES := 10

  // ---------- the stored value ----------

  /** The expiry second that garbage collection reads from the last ten characters. */
  function Stamp(token: string): Option<int> {
    if |token| < TIMESTAMP_LEN then None
    else ParseInt(token[|token| - TIMESTAMP_LEN..])
  }

  /** Garbage collection at the instant now (in nanoseconds) keeps the token. */
  predicate Live(token: string, now: int) {
    Stamp(token).Some? && Stamp(token).value * NANOS_PER_SECOND > now
  }

  function KeepLive(tokens: seq<string>, now: int): (kept: seq<string>)
    ensures forall t | t in kept :: t in tokens && Live(t, now)
    ensures forall t | t in tokens && Live(t, now) :: t in kept
  {
    if tokens == [] then []
    else if Live(tokens[0], now) then [tokens[0]] + KeepLive(tokens[1..], now)
    else KeepLive(tokens[1..], now)
  }

  /** The new value of the list after adding a token to the old value, if there is one. */
  function AddToken(previous: Option<string>, token: string, now: int): string {
    match previous
    case None => token
    case Some(list) => Join(KeepLive(Split(list), now) + [token])
  }

  /** The tokens a reader of the stored value finds. */
  function Elements(list: Option<string>): (tokens: seq<string>)
    ensures forall t | t in tokens :: SEP !in t
  {
    if list.None? then [] else Split(list.value)
  }

  /** The lookup of IsBlocked: a substring search in the serialized list. */
  predicate Listed(list: Option<string>, token: string) {
    list.Some? && Contains(list.value, token)
  }

  // ---------- garbage collection ----------

  /** The list that Add stores splits back into the surviving tokens and the new one. */
  lemma ElementsAfterAdd(previous: Option<string>, token: string, now: int)
    ensures Elements(Some(AddToken(previous, token, now))) == KeepLive(Elements(previous), now) + Split(token)
  {
    match previous
    case None =>
      assert KeepLive([], now) + Split(token) == Split(token);
    case Some(list) =>
      SplitJoinSnoc(KeepLive(Split(list), now), token);
  }

  /** A token that is live at a later instant survives an addition, as does the new one. */
  lemma AddRemembers(previous: Option<string>, token: string, t: string, now: int, later: int)
    requires now <= later && SEP !in t && Live(t, later)
    requires t in Elements(previous) || t == token
    ensures t in Elements(Some(AddToken(previous, token, now)))
  {
    ElementsAfterAdd(previous, token, now);
    SplitOne(t);
    if t in Elements(previous) {
      assert t in KeepLive(Elements(previous), now);
    } else {
      assert t in Split(token);
    }
  }

  lemma {:induction false} KeepLiveTwice(tokens: seq<string>, t1: int, t2: int)
    requires t1 <= t2
    ensures KeepLive(KeepLive(tokens, t1), t2) == KeepLive(tokens, t2)
  {
    if tokens != [] {
      KeepLiveTwice(tokens[1..], t1, t2);
      var first, rest := tokens[0], KeepLive(tokens[1..], t1);
      if Live(first, t1) {
        assert ([first] + rest)[0] == first && ([first] + rest)[1..] == rest;
      }
    }
  }

  lemma {:induction false} KeepLiveAppend(a: seq<string>, b: seq<string>, now: int)
    ensures KeepLive(a + b, now) == KeepLive(a, now) + KeepLive(b, now)
  {
    if a == [] {
      assert a + b == b;
    } else {
      var first, rest := a[0], a[1..];
      KeepLiveAppend(rest, b, now);
      assert (a + b)[0] == first && (a + b)[1..] == rest + b;
      var x, y := KeepLive(rest, now), KeepLive(b, now);
      assert [first] + (x + y) == ([first] + x) + y;
    }
  }

  lemma KeepLiveSnoc(tokens: seq<string>, last: string, now: int)
    ensures KeepLive(tokens + [last], now)
         == if Live(last, now) then KeepLive(tokens, now) + [last] else KeepLive(tokens, now)
  {
    KeepLiveAppend(tokens, [last], now);
  }

  /** Garbage collection through the serialized form composes: an Add at t1 followed by
      an Add at t2 stores what one collection of the original list at t2 would keep,
      then the first token if it is still live, then the second. */
  lemma CleanupComposes(list: string, first: string, second: string, t1: int, t2: int)
    requires t1 <= t2
    requires SEP !in first && SEP !in second
    ensures var once := AddToken(Some(list), first, t1);
            var twice := AddToken(Some(once), second, t2);
            Split(twice) == KeepLive(Split(list) + [first], t2) + [second]
  {
    var once := AddToken(Some(list), first, t1);
    ElementsAfterAdd(Some(list), first, t1);
    ElementsAfterAdd(Some(once), second, t2);
    SplitOne(first);
    SplitOne(second);
    var kept := KeepLive(Split(list), t1);
    KeepLiveAppend(kept, [first], t2);
    KeepLiveTwice(Split(list), t1, t2);
    KeepLiveAppend(Split(list), [first], t2);
  }

  // ---------- lookup ----------

  /** Substring search refines set membership: a comma-free token is found exactly when
      it is a substring of a stored token. */
  lemma LookupExact(list: string, token: string)
    requires SEP !in token
    ensures Listed(Some(list), token) <==> exists t | t in Elements(Some(list)) :: Contains(t, token)
  {
    JoinSplit(list);
    ContainsJoin(Split(list), token);
  }

  /** Among tokens of one length the lookup is exactly membership. */
  lemma LookupIsMembership(list: string, token: string)
    requires SEP !in token
    requires forall t | t in Elements(Some(list)) :: |t| <= |token|
    ensures Listed(Some(list), token) <==> token in Elements(Some(list))
  {
    LookupExact(list, token);
    forall t | t in Elements(Some(list))
      ensures Contains(t, token) <==> t == token
    {
      if |t| == |token| {
        ContainsSameLength(t, token);
      }
    }
  }

  // ---------- the shortened token ----------

  /** The token identifier followed by the expiry second, as shortenToken builds it. */
  function ShortenToken(id: string, exp: int): string {
    id + FormatInt(exp)
  }

  /** For expiry seconds from 10^9 on, garbage collection reads the expiry modulo 10^10. */
  lemma StampOfShortened(id: string, exp: nat)
    requires exp >= Pow10(9)
    ensures Stamp(ShortenToken(id, exp)) == Some(exp % Pow10(10))
  {
    var digits := FormatNat(exp);
    DigitCount(exp, 10);
    LastDigits(exp, 10);
    var token := ShortenToken(id, exp);
    var last := Suffix(digits, 10);
    assert token[|token| - 10..] == last;
    assert last[0] in digits;
  }

  /** With ten digits the stamp is the expiry: garbage collection keeps the token until
      then. */
  lemma LiveUntilExpiry(id: string, exp: nat, now: int)
    requires Pow10(9) <= exp < Pow10(10) && now < exp * NANOS_PER_SECOND
    ensures Live(ShortenToken(id, exp), now)
  {
    StampOfShortened(id, exp);
  }

  /** A token identifier followed by an expiry of ten digits. */
  predicate TenDigits(exp: nat) {
    1_000_000_000 <= exp < 10_000_000_000
  }

  /** Before its expiry such a token is live, and from then on it is not. */
  lemma LiveExactly(id: string, exp: nat, now: int)
    requires TenDigits(exp)
    ensures Live(ShortenToken(id, exp), now) <==> now < exp * NANOS_PER_SECOND
  {
    TenDigitPowers();
    StampOfShortened(id, exp);
  }

  lemma TenDigitPowers()
    ensures Pow10(9) == 1_000_000_000 && Pow10(10) == 10_000_000_000
  {
    assert Pow10(3) == 1000;
    assert Pow10(6) == 1000_000;
  }

  /** What is left of a list holds the tokens with a ten-digit expiry that have not expired
      and no others. */
  ghost predicate CollectedAt(tokens: seq<string>, kept: seq<string>, now: int) {
    forall id: string, exp: nat {:trigger ShortenToken(id, exp)} | TenDigits(exp) ::
      ShortenToken(id, exp) in kept <==> ShortenToken(id, exp) in tokens && now < exp * NANOS_PER_SECOND
  }

  lemma Collected(tokens: seq<string>, now: int)
    ensures CollectedAt(tokens, KeepLive(tokens, now), now)
  {
    forall id: string, exp: nat {:trigger ShortenToken(id, exp)} | TenDigits(exp)
      ensures ShortenToken(id, exp) in KeepLive(tokens, now)
         <==> ShortenToken(id, exp) in tokens && now < exp * NANOS_PER_SECOND
    {
      LiveExactly(id, exp, now);
    }
  }

  /** A token is well formed if its last ten characters are a number. */
  predicate WellFormed(token: string) {
    |token| >= 10 && ParseInt(Suffix(token, 10)).Some?
  }

  ghost predicate AllWellFormed(tokens: seq<string>) {
    forall t | t in tokens :: WellFormed(t)
  }

  lemma KeptWellFormed(tokens: seq<string>, now: int)
    ensures AllWellFormed(KeepLive(tokens, now))
  {
  }

  // ---------- the code that edits the Secret in place ----------

  type Data = map<string, string>

  function ListOf(data: Data): Option<string> {
    if DATA_KEY in data then Some(data[DATA_KEY]) else None
  }

  /** One server's copy of the Secret. stringData is write-only: the API server merges
      it into the data when the copy is sent back. */
  class Secret {
    var data: Data
    var stringData: Data
    var resourceVersion: nat

    constructor (data: Data, resourceVersion: nat)
      ensures this.data == data && this.resourceVersion == resourceVersion
    {
      this.data := data;
      this.stringData := map[];
      this.resourceVersion := resourceVersion;
    }
  }

  /** The loop over the stored tokens drops the malformed and the expired ones and
      keeps the others in order. */
  method CleanupOld(list: string, now: int) returns (newList: seq<string>)
    ensures newList == KeepLive(Split(list), now)
    ensures CollectedAt(Split(list), newList, now)
    ensures AllWellFormed(newList)
  {
    var tokens := Split(list);
    newList := [];
    for i := 0 to |tokens|
      invariant newList == KeepLive(tokens[..i], now)
    {
      var shortenedToken := tokens[i];
      assert tokens[..i + 1] == tokens[..i] + [shortenedToken];
      KeepLiveSnoc(tokens[..i], shortenedToken, now);
      var length := |shortenedToken|;
      if length < TIMESTAMP_LEN {
        continue;
      }
      assert shortenedToken[length - 10..length] == shortenedToken[length - 10..];
      var seconds := ParseInt(shortenedToken[length - 10..length]);
      if seconds == None {
        continue;
      }
      if seconds.value * NANOS_PER_SECOND > now {
        newList := newList + [shortenedToken];
      }
    }
    assert tokens[..|tokens|] == tokens;
    Collected(tokens, now);
    KeptWellFormed(tokens, now);
  }

  method AddDataToSecret(secret: Secret, shortenedToken: string, now: int)
    modifies secret`stringData
    ensures secret.stringData == map[DATA_KEY := AddToken(ListOf(secret.data), shortenedToken, now)]
  {
    if DATA_KEY !in secret.data {
      secret.stringData := map[DATA_KEY := shortenedToken];
      return;
    }
    var list := CleanupOld(secret.data[DATA_KEY], now);
    secret.stringData := map[DATA_KEY := Join(list + [shortenedToken])];
  }

  /** The Secret as the API server keeps it: all its versions, the last being current,
      and the shared clock. */
  class ApiServer {
    var versions: seq<Data>
    var clock: int
    ghost var failures: nat    // calls that failed, conflicted, or whose reply was lost

    ghost predicate Valid()
      reads this
    {
      |versions| >= 1
    }

    /** Anything the other servers write, and any time that passes, between two calls. */
    method OtherServers()
      requires Valid()
      modifies this`versions, this`clock
      ensures Valid() && old(versions) <= versions && old(clock) <= clock
    {
      var written: seq<Data> := *;
      var elapsed: int := *;
      versions := versions + written;
      clock := if elapsed >= 0 then clock + elapsed else clock;
    }

    /** Reads go through a cache, so any version may be returned, or an error. */
    method GetSecret() returns (secret: Option<Secret>)
      requires Valid()
      modifies this`failures
      ensures failures == old(failures) + if secret.None? then 1 else 0
      ensures secret.Some? ==>
        && fresh(secret.value)
        && secret.value.resourceVersion < |versions|
        && secret.value.data == versions[secret.value.resourceVersion]
    {
      var version: int := *;
      if version < 0 || version >= |versions| {
        failures := failures + 1;
        return None;
      }
      var s := new Secret(versions[version], version);
      secret := Some(s);
    }

    /** A write lands exactly when it was computed from the current version; the reply
        to a write that landed may still be lost. */
    method UpdateSecret(secret: Secret) returns (ok: bool)
      requires Valid()
      modifies this`versions, this`failures
      ensures failures == old(failures) + if ok then 0 else 1
      ensures ok ==> secret.resourceVersion == |old(versions)| - 1
      ensures versions == old(versions)
           || (secret.resourceVersion == |old(versions)| - 1
               && versions == old(versions) + [secret.data + secret.stringData])
      ensures ok ==> versions == old(versions) + [secret.data + secret.stringData]
    {
      var reached: bool, replied: bool := *, *;
      if !reached || secret.resourceVersion != |versions| - 1 {
        failures := failures + 1;
        return false;
      }
      versions := versions + [secret.data + secret.stringData];
      failures := failures + if replied then 0 else 1;
      return replied;
    }
  }

  /** The last write added the token, at some instant of the given period, to the
      version just before it. */
  ghost predicate LastWriteAdds(versions: seq<Data>, token: string, from: int, to: int) {
    && |versions| >= 2
    && AddsWithin(versions[|versions| - 2], versions[|versions| - 1], token, from, to)
  }

  ghost predicate AddsWithin(previous: Data, latest: Data, token: string, from: int, to: int) {
    exists now | from <= now <= to :: Adds(previous, latest, token, now)
  }

  predicate Adds(previous: Data, latest: Data, token: string, now: int) {
    latest == previous[DATA_KEY := AddToken(ListOf(previous), token, now)]
  }

  lemma MergedIsAdded(previous: Data, token: string, now: int)
    ensures Adds(previous, previous + map[DATA_KEY := AddToken(ListOf(previous), token, now)], token, now)
  {
  }

  class Store {
    const client: ApiServer

    constructor (client: ApiServer)
      ensures this.client == client
    {
      this.client := client;
    }

    /** A successful Add extends the version that was current at the moment of the
        write, whatever other servers wrote since the read. It fails only if one of its two
        calls does. */
    method Add(shortenedToken: string) returns (ok: bool)
      requires client.Valid()
      modifies client
      ensures client.Valid()
      ensures old(client.versions) <= client.versions && old(client.clock) <= client.clock
      ensures ok ==> |old(client.versions)| < |client.versions|
      ensures ok ==> LastWriteAdds(client.versions, shortenedToken, old(client.clock), client.clock)
      ensures client.failures == old(client.failures) + if ok then 0 else 1
    {
      var secret := client.GetSecret();
      if secret.None? {
        return false;
      }
      client.OtherServers();
      var now := client.clock;
      AddDataToSecret(secret.value, shortenedToken, now);
      client.OtherServers();
      ok := client.UpdateSecret(secret.value);
      if ok {
        ghost var previous := client.versions[|client.versions| - 2];
        assert secret.value.data == previous;
        MergedIsAdded(previous, shortenedToken, now);
        assert Adds(previous, client.versions[|client.versions| - 1], shortenedToken, now);
      }
    }

    /** The answer is the lookup in one of the stored versions; there is none only if the
        read failed. */
    method Exists(shortenedToken: string) returns (answer: Option<bool>)
      requires client.Valid()
      modifies client`failures
      ensures client.failures == old(client.failures) + if answer.None? then 1 else 0
      ensures answer.Some? ==> exists data | data in client.versions ::
        answer.value == Listed(ListOf(data), shortenedToken)
    {
      var secret := client.GetSecret();
      if secret.None? {
        return None;
      }
      var data := secret.value.data;
      assert data in client.versions;
      answer := Some(DATA_KEY in data && Contains(data[DATA_KEY], shortenedToken));
    }

    /** Block: Add with at most MAX_RETRIES retries, other servers writing in between. The
        retries stop early when the request's context is cancelled. */
    method Block(shortenedToken: string) returns (ok: bool, attempts: nat, cancelled: bool)
      requires client.Valid()
      modifies client
      ensures client.Valid()
      ensures old(client.versions) <= client.versions && old(client.clock) <= client.clock
      ensures 1 <= attempts <= 11
      ensures ok ==> |old(client.versions)| < |client.versions|
      ensures ok ==> LastWriteAdds(client.versions, shortenedToken, old(client.clock), client.clock)
      ensures !ok ==> attempts == 11 || cancelled
      ensures client.failures == old(client.failures) + attempts - if ok then 1 else 0
    {
      attempts, cancelled := 1, false;
      ok := Add(shortenedToken);
      while !ok && attempts <= MAX_RETRIES
        invariant client.Valid()
        invariant old(client.versions) <= client.versions && old(client.clock) <= client.clock
        invariant 1 <= attempts <= MAX_RETRIES + 1
        invariant ok ==> |old(client.versions)| < |client.versions|
        invariant ok ==> LastWriteAdds(client.versions, shortenedToken, old(client.clock), client.clock)
        invariant client.failures == old(client.failures) + attempts - if ok then 1 else 0
        decreases !ok, MAX_RETRIES + 1 - attempts
      {
        client.OtherServers();
        cancelled := *;
        if cancelled {
          return;
        }
        attempts := attempts + 1;
        ok := Add(shortenedToken);
      }
    }
  }
}
