/** The store behind the login rate limiter (internal/server/session_failures_storage.go):
    per visitor a timeout that doubles on every failure. Times and durations are
    nanoseconds; instants count from Go's zero time. */
module LoginBackoff {
  import opened Wrappers
  import opened Integers

  const INITIAL_TIMEOUT := 20_000_000
  const ATTEMPTS_EXPIRATION := 21_600_000_000_000
  const ZERO_TIME := 0

  /** time.Time.Sub: the difference, saturated to an int64 duration. */
  function Sub(a: int, b: int): int {
    if a - b > MAX_INT64 then MAX_INT64
    else if a - b < MIN_INT64 then MIN_INT64
    else a - b
  }

  datatype Visitor = Visitor(lastSeen: int, timeout: int, expire: int)

  datatype StoreValue = StoreValue(visitors: map<string, Visitor>, expiresIn: int, lastCleanup: int)

  // ---------- the store as a value ----------

  function NewVisitor(): Visitor { Visitor(ZERO_TIME, INITIAL_TIMEOUT, ATTEMPTS_EXPIRATION) }

  function VisitorOf(s: StoreValue, id: string): Visitor {
    if id in s.visitors then s.visitors[id] else NewVisitor()
  }

  predicate Stale(v: Visitor, now: int) { Sub(now, v.lastSeen) > v.expire }

  function WithoutStale(visitors: map<string, Visitor>, now: int): map<string, Visitor> {
    map id | id in visitors && !Stale(visitors[id], now) :: visitors[id]
  }

  function Seen(s: StoreValue, id: string, now: int): StoreValue {
    s.(visitors := s.visitors[id := VisitorOf(s, id).(lastSeen := now)])
  }

  function CleanedIfDue(s: StoreValue, now: int): StoreValue {
    if Sub(now, s.lastCleanup) > s.expiresIn
    then s.(visitors := WithoutStale(s.visitors, now), lastCleanup := now)
    else s
  }

  function AfterAllow(s: StoreValue, id: string, now: int): StoreValue {
    CleanedIfDue(Seen(s, id, now), now)
  }

  /** The bucket's verdict and the visitor's own back-off must both agree. */
  predicate Allowed(s: StoreValue, id: string, now: int, bucket: bool) {
    bucket && Sub(now, VisitorOf(s, id).lastSeen) > VisitorOf(s, id).timeout
  }

  function AfterIncrease(s: StoreValue, id: string): StoreValue {
    if id !in s.visitors then s
    else
      var v := s.visitors[id];
      s.(visitors := s.visitors[id := v.(timeout := Int64(2 * v.timeout))])
  }

  function AfterCleanupVisitor(s: StoreValue, id: string): StoreValue {
    s.(visitors := s.visitors - {id})
  }

  // ---------- the code, updating the store in place ----------

  class RateLimiterMemoryStore {
    var visitors: map<string, Visitor>
    var lastCleanup: int
    const expiresIn: int

    constructor (expiresIn: int, now: int)
      ensures Value() == StoreValue(map[], expiresIn, now)
    {
      this.expiresIn := expiresIn;
      visitors, lastCleanup := map[], now;
    }

    function Value(): StoreValue
      reads this
    {
      StoreValue(visitors, expiresIn, lastCleanup)
    }

    /** bucket is the verdict of the visitor's token bucket. */
    method Allow(id: string, now: int, bucket: bool) returns (allowed: bool)
      modifies this
      ensures Value() == AfterAllow(old(Value()), id, now)
      ensures allowed == Allowed(old(Value()), id, now, bucket)
    {
      if id !in visitors {
        visitors := visitors[id := NewVisitor()];
      }
      var limiter := visitors[id];
      var sinceLastFailure := Sub(now, limiter.lastSeen);
      limiter := limiter.(lastSeen := now);
      visitors := visitors[id := limiter];
      assert visitors == old(visitors)[id := VisitorOf(old(Value()), id).(lastSeen := now)];
      if Sub(now, lastCleanup) > expiresIn {
        CleanupStaleVisitors(now);
      }
      allowed := bucket && sinceLastFailure > limiter.timeout;
    }

    method CleanupVisitor(id: string)
      modifies this`visitors
      ensures Value() == AfterCleanupVisitor(old(Value()), id)
    {
      visitors := visitors - {id};
    }

    method IncreaseTimeout(id: string)
      modifies this`visitors
      ensures Value() == AfterIncrease(old(Value()), id)
    {
      if id in visitors {
        var limiter := visitors[id];
        visitors := visitors[id := limiter.(timeout := Int64(2 * limiter.timeout))];
      }
    }

    /** The loop visits the entries in an arbitrary order. */
    method CleanupStaleVisitors(now: int)
      modifies this
      ensures visitors == WithoutStale(old(visitors), now) && lastCleanup == now
    {
      var pending := visitors.Keys;
      while pending != {}
        invariant pending <= visitors.Keys <= old(visitors).Keys
        invariant forall id | id in visitors :: visitors[id] == old(visitors)[id]
        invariant forall id | id in visitors && id !in pending :: !Stale(visitors[id], now)
        invariant forall id | id in old(visitors) && !Stale(old(visitors)[id], now) :: id in visitors
        decreases |pending|
      {
        var id :| id in pending;
        pending := pending - {id};
        if Sub(now, visitors[id].lastSeen) > visitors[id].expire {
          visitors := visitors - {id};
        }
      }
      lastCleanup := now;
    }
  }

  // ---------- runs, with a record of each map entry ----------

  /** An accepted attempt, with the number of increases of the entry before it. */
  datatype Accepted = Accepted(at: int, increases: nat)

  /** What happened to one map entry since it was created. */
  datatype Record = Record(increases: nat, accepted: seq<Accepted>)

  datatype Tracked = Tracked(store: StoreValue, records: map<string, Record>, clock: int)

  datatype Event =
    | Attempt(id: string, elapsed: nat, bucket: bool)
    | Failure(id: string)
    | Success(id: string)

  function RecordOf(t: Tracked, id: string): Record {
    if id in t.records then t.records[id] else Record(0, [])
  }

  function Counted(r: Record, now: int, accept: bool): Record {
    if accept then r.(accepted := r.accepted + [Accepted(now, r.increases)]) else r
  }

  function Attempted(t: Tracked, id: string, now: int, accept: bool): Tracked {
    Tracked(Seen(t.store, id, now), t.records[id := Counted(RecordOf(t, id), now, accept)], now)
  }

  /** A cleanup, if one is due; records live exactly as long as the entries they describe. */
  function Evict(t: Tracked): Tracked {
    var store := CleanedIfDue(t.store, t.clock);
    t.(store := store, records := map id | id in t.records && id in store.visitors :: t.records[id])
  }

  function Increased(t: Tracked, id: string): Tracked {
    if id !in t.records then t.(store := AfterIncrease(t.store, id))
    else
      var r := t.records[id];
      t.(store := AfterIncrease(t.store, id), records := t.records[id := r.(increases := r.increases + 1)])
  }

  function Forgotten(t: Tracked, id: string): Tracked {
    t.(store := AfterCleanupVisitor(t.store, id), records := t.records - {id})
  }

  function Step(t: Tracked, e: Event): Tracked {
    match e
    case Attempt(id, elapsed, bucket) =>
      var now := t.clock + elapsed;
      Evict(Attempted(t, id, now, Allowed(t.store, id, now, bucket)))
    case Failure(id) => Increased(t, id)
    case Success(id) => Forgotten(t, id)
  }

  function Run(t: Tracked, events: seq<Event>): Tracked
    decreases |events|
  {
    if events == [] then t else Run(Step(t, events[0]), events[1..])
  }

  function Fresh(expiresIn: int, now: int): Tracked {
    Tracked(StoreValue(map[], expiresIn, now), map[], now)
  }

  // ---------- the doubling timeout ----------

  function Pow2(k: nat): (p: nat)
    ensures p >= 1
  {
    if k == 0 then 1 else 2 * Pow2(k - 1)
  }

  lemma {:induction false} Pow2Monotone(a: nat, b: nat)
    requires a <= b
    ensures Pow2(a) <= Pow2(b)
    decreases b
  {
    if a < b {
      Pow2Monotone(a, b - 1);
    }
  }

  function TimeoutAfter(increases: nat): int {
    INITIAL_TIMEOUT * Pow2(increases)
  }

  lemma Pow2Values()
    ensures Pow2(8) == 256 && Pow2(38) == 274877906944 && Pow2(39) == 549755813888
  {
    assert Pow2(8) == 256;
    assert Pow2(16) == 65536;
    assert Pow2(24) == 16777216;
    assert Pow2(32) == 4294967296;
    assert Pow2(38) == 274877906944;
  }

  /** The timeout is representable in an int64 exactly up to 38 increases. */
  lemma TimeoutFits(increases: nat)
    ensures TimeoutAfter(increases) <= MAX_INT64 <==> increases <= 38
  {
    Pow2Values();
    if increases <= 38 {
      Pow2Monotone(increases, 38);
    } else {
      Pow2Monotone(39, increases);
    }
  }

  /** The timeout the code holds after that many increases. */
  function HeldTimeout(increases: nat): (timeout: int)
    ensures MIN_INT64 <= timeout <= MAX_INT64
  {
    if increases == 0 then INITIAL_TIMEOUT else Int64(2 * HeldTimeout(increases - 1))
  }

  lemma {:induction false} HeldIsExact(increases: nat)
    requires increases <= 38
    ensures HeldTimeout(increases) == TimeoutAfter(increases)
  {
    if increases > 0 {
      HeldIsExact(increases - 1);
      TimeoutFits(increases);
    }
  }

  // ---------- what every step keeps ----------

  ghost predicate EntryOk(v: Visitor, r: Record, clock: int) {
    && v.expire == ATTEMPTS_EXPIRATION
    && v.timeout == HeldTimeout(r.increases)
    && (v.lastSeen == ZERO_TIME || v.lastSeen <= clock)
    && (r.accepted != [] ==> r.accepted[|r.accepted| - 1].at <= v.lastSeen <= clock)
    && (forall i | 0 <= i < |r.accepted| :: r.accepted[i].increases <= r.increases)
    && InOrder(r.accepted)
    && GapsOk(r.accepted)
  }

  ghost predicate InOrder(accepted: seq<Accepted>) {
    forall i, j | 0 <= i <= j < |accepted| :: accepted[i].at <= accepted[j].at
  }

  /** Two accepted attempts of one entry are further apart than the timeout that the
      increases before the second one call for, as long as it is representable. */
  ghost predicate GapsOk(accepted: seq<Accepted>) {
    forall i, j | 0 <= i < j < |accepted| && accepted[j].increases <= 38 ::
      accepted[j].at - accepted[i].at > TimeoutAfter(accepted[j].increases)
  }

  ghost predicate EntriesOk(visitors: map<string, Visitor>, records: map<string, Record>, clock: int) {
    && records.Keys == visitors.Keys
    && forall id {:trigger EntryOk(visitors[id], records[id], clock)} | id in records ::
         EntryOk(visitors[id], records[id], clock)
  }

  ghost predicate Inv(t: Tracked) {
    EntriesOk(t.store.visitors, t.records, t.clock)
  }

  lemma AcceptKeepsGaps(v: Visitor, r: Record, clock: int, now: int)
    requires EntryOk(v, r, clock) && clock <= now
    requires Sub(now, v.lastSeen) > v.timeout
    ensures GapsOk(r.accepted + [Accepted(now, r.increases)])
  {
    var longer := r.accepted + [Accepted(now, r.increases)];
    forall i, j | 0 <= i < j < |longer| && longer[j].increases <= 38
      ensures longer[j].at - longer[i].at > TimeoutAfter(longer[j].increases)
    {
      if j == |r.accepted| {
        HeldIsExact(r.increases);
        assert r.accepted[i].at <= r.accepted[|r.accepted| - 1].at;
      }
    }
  }

  lemma NewEntryOk(clock: int)
    ensures EntryOk(NewVisitor(), Record(0, []), clock)
  {
  }

  lemma AttemptedEntryOk(v: Visitor, r: Record, clock: int, now: int, accept: bool)
    requires EntryOk(v, r, clock) && clock <= now
    requires accept ==> Sub(now, v.lastSeen) > v.timeout
    ensures EntryOk(v.(lastSeen := now), Counted(r, now, accept), now)
  {
    if accept {
      AcceptKeepsGaps(v, r, clock, now);
    }
  }

  lemma TimePassesOk(visitors: map<string, Visitor>, records: map<string, Record>, clock: int, now: int)
    requires EntriesOk(visitors, records, clock) && clock <= now
    ensures EntriesOk(visitors, records, now)
  {
    forall id | id in records
      ensures EntryOk(visitors[id], records[id], now)
    {
      assert EntryOk(visitors[id], records[id], clock);
    }
  }

  lemma PutEntryOk(visitors: map<string, Visitor>, records: map<string, Record>, clock: int,
                   id: string, v: Visitor, r: Record)
    requires EntriesOk(visitors, records, clock) && EntryOk(v, r, clock)
    ensures EntriesOk(visitors[id := v], records[id := r], clock)
  {
  }

  lemma EvictKeepsInv(t: Tracked)
    requires Inv(t)
    ensures Inv(Evict(t))
  {
  }

  lemma IncreasedEntryOk(v: Visitor, r: Record, clock: int)
    requires EntryOk(v, r, clock)
    ensures EntryOk(v.(timeout := Int64(2 * v.timeout)), r.(increases := r.increases + 1), clock)
  {
  }

  lemma AttemptedKeepsInv(t: Tracked, id: string, now: int, accept: bool)
    requires Inv(t) && t.clock <= now
    requires accept ==> Sub(now, VisitorOf(t.store, id).lastSeen) > VisitorOf(t.store, id).timeout
    ensures Inv(Attempted(t, id, now, accept))
  {
    NewEntryOk(t.clock);
    var v, r := VisitorOf(t.store, id), RecordOf(t, id);
    assert EntryOk(v, r, t.clock);
    AttemptedEntryOk(v, r, t.clock, now, accept);
    TimePassesOk(t.store.visitors, t.records, t.clock, now);
    PutEntryOk(t.store.visitors, t.records, now, id, v.(lastSeen := now), Counted(r, now, accept));
  }

  lemma IncreasedKeepsInv(t: Tracked, id: string)
    requires Inv(t)
    ensures Inv(Increased(t, id))
  {
    if id in t.records {
      var v, r := t.store.visitors[id], t.records[id];
      IncreasedEntryOk(v, r, t.clock);
      PutEntryOk(t.store.visitors, t.records, t.clock, id,
                 v.(timeout := Int64(2 * v.timeout)), r.(increases := r.increases + 1));
    }
  }

  lemma ForgottenKeepsInv(t: Tracked, id: string)
    requires Inv(t)
    ensures Inv(Forgotten(t, id))
  {
  }

  lemma StepKeepsInv(t: Tracked, e: Event)
    requires Inv(t)
    ensures Inv(Step(t, e))
  {
    match e
    case Attempt(id, elapsed, bucket) =>
      var now := t.clock + elapsed;
      var accept := Allowed(t.store, id, now, bucket);
      AttemptedKeepsInv(t, id, now, accept);
      EvictKeepsInv(Attempted(t, id, now, accept));
    case Failure(id) =>
      IncreasedKeepsInv(t, id);
    case Success(id) =>
      ForgottenKeepsInv(t, id);
  }

  lemma {:induction false} RunKeepsInv(t: Tracked, events: seq<Event>)
    requires Inv(t)
    ensures Inv(Run(t, events))
    decreases |events|
  {
    if events != [] {
      StepKeepsInv(t, events[0]);
      RunKeepsInv(Step(t, events[0]), events[1..]);
    }
  }

  lemma ReachableEntry(expiresIn: int, start: int, events: seq<Event>, id: string)
    requires var t := Run(Fresh(expiresIn, start), events); id in t.store.visitors || id in t.records
    ensures var t := Run(Fresh(expiresIn, start), events);
      id in t.store.visitors && id in t.records && EntryOk(t.store.visitors[id], t.records[id], t.clock)
  {
    RunKeepsInv(Fresh(expiresIn, start), events);
  }

  /** In every reachable state each entry's timeout is the initial one doubled once for
      each increase since the entry was created exactly up to 38 increases; from 39 on the
      int64 doubling has wrapped and it is some other value. */
  lemma TimeoutInEveryState(expiresIn: int, start: int, events: seq<Event>, id: string)
    requires id in Run(Fresh(expiresIn, start), events).store.visitors
    ensures var t := Run(Fresh(expiresIn, start), events);
      && id in t.records
      && MIN_INT64 <= t.store.visitors[id].timeout <= MAX_INT64
      && (t.store.visitors[id].timeout == TimeoutAfter(t.records[id].increases)
          <==> t.records[id].increases <= 38)
  {
    var t := Run(Fresh(expiresIn, start), events);
    ReachableEntry(expiresIn, start, events, id);
    TimeoutFits(t.records[id].increases);
    if t.records[id].increases <= 38 {
      HeldIsExact(t.records[id].increases);
    }
  }

  /** An attempt never evicts its own visitor. It removes another one exactly when a
      cleanup is due and that visitor has been idle for more than six hours. */
  lemma EvictionExact(expiresIn: int, start: int, events: seq<Event>, caller: string, elapsed: nat, other: string)
    requires other in Run(Fresh(expiresIn, start), events).store.visitors && other != caller
    ensures var t := Run(Fresh(expiresIn, start), events);
            var now := t.clock + elapsed;
            var after := AfterAllow(t.store, caller, now);
      && caller in after.visitors && after.visitors[caller].lastSeen == now
      && (other !in after.visitors <==>
            Sub(now, t.store.lastCleanup) > expiresIn
            && Sub(now, t.store.visitors[other].lastSeen) > 6 * 3600 * NANOS_PER_SECOND)
      && (other in after.visitors ==> after.visitors[other] == t.store.visitors[other])
      && after.lastCleanup == (if Sub(now, t.store.lastCleanup) > expiresIn then now else t.store.lastCleanup)
  {
    var t := Run(Fresh(expiresIn, start), events);
    RunKeepsInv(Fresh(expiresIn, start), events);
    RunKeepsExpiresIn(Fresh(expiresIn, start), events);
    ExpireConstant(t, other);
    ExpireConstant(t, caller);
    AllowEvicts(t.store, caller, t.clock + elapsed, other);
  }

  lemma AllowEvicts(s: StoreValue, caller: string, now: int, other: string)
    requires other in s.visitors && other != caller
    requires s.visitors[other].expire == ATTEMPTS_EXPIRATION
    requires VisitorOf(s, caller).expire == ATTEMPTS_EXPIRATION
    ensures var after := AfterAllow(s, caller, now);
      && caller in after.visitors && after.visitors[caller].lastSeen == now
      && (other !in after.visitors <==>
            Sub(now, s.lastCleanup) > s.expiresIn
            && Sub(now, s.visitors[other].lastSeen) > 6 * 3600 * NANOS_PER_SECOND)
      && (other in after.visitors ==> after.visitors[other] == s.visitors[other])
      && after.lastCleanup == (if Sub(now, s.lastCleanup) > s.expiresIn then now else s.lastCleanup)
  {
  }

  lemma ExpireConstant(t: Tracked, id: string)
    requires Inv(t)
    ensures VisitorOf(t.store, id).expire == ATTEMPTS_EXPIRATION
  {
    if id in t.records {
      assert EntryOk(t.store.visitors[id], t.records[id], t.clock);
    }
  }

  lemma {:induction false} RunKeepsExpiresIn(t: Tracked, events: seq<Event>)
    ensures Run(t, events).store.expiresIn == t.store.expiresIn
    decreases |events|
  {
    if events != [] {
      RunKeepsExpiresIn(Step(t, events[0]), events[1..]);
    }
  }

  // ---------- geometric lock-out ----------

  /** Each accepted attempt of the visitor is followed by an increase before that visitor's
      next attempt (or its entry is gone by then). */
  ghost predicate EachFailureCounted(t: Tracked, events: seq<Event>, id: string)
    decreases |events|
  {
    events != [] ==>
      && (events[0].Attempt? && events[0].id == id ==>
            RecordOf(t, id).increases >= |RecordOf(t, id).accepted|)
      && EachFailureCounted(Step(t, events[0]), events[1..], id)
  }

  /** Besides, an increase comes only from an accepted attempt, once for each. */
  ghost predicate EachFailureCountedOnce(t: Tracked, events: seq<Event>, id: string)
    decreases |events|
  {
    events != [] ==>
      && (events[0].Attempt? && events[0].id == id ==>
            RecordOf(t, id).increases >= |RecordOf(t, id).accepted|)
      && (events[0].Failure? && events[0].id == id && id in t.records ==>
            t.records[id].increases < |t.records[id].accepted|)
      && EachFailureCountedOnce(Step(t, events[0]), events[1..], id)
  }

  ghost predicate EachFailed(accepted: seq<Accepted>) {
    forall i | 0 <= i < |accepted| :: accepted[i].increases >= i
  }

  lemma {:induction false} CountedRun(t: Tracked, events: seq<Event>, id: string)
    requires EachFailureCounted(t, events, id) && EachFailed(RecordOf(t, id).accepted)
    ensures EachFailed(RecordOf(Run(t, events), id).accepted)
    decreases |events|
  {
    if events != [] {
      CountedRun(Step(t, events[0]), events[1..], id);
    }
  }

  ghost predicate CountedExactly(r: Record) {
    r.increases <= |r.accepted| && forall i | 0 <= i < |r.accepted| :: r.accepted[i].increases == i
  }

  lemma {:induction false} CountedOnceRun(t: Tracked, events: seq<Event>, id: string)
    requires EachFailureCountedOnce(t, events, id) && CountedExactly(RecordOf(t, id))
    ensures CountedExactly(RecordOf(Run(t, events), id))
    decreases |events|
  {
    if events != [] {
      CountedOnceRun(Step(t, events[0]), events[1..], id);
    }
  }

  lemma {:induction false} GapsAddUp(accepted: seq<Accepted>)
    requires GapsOk(accepted) && EachFailed(accepted) && |accepted| >= 2
    requires forall i | 0 <= i < |accepted| :: accepted[i].increases <= 38
    ensures accepted[|accepted| - 1].at - accepted[0].at > INITIAL_TIMEOUT * (Pow2(|accepted|) - 2)
    decreases |accepted|
  {
    var n := |accepted|;
    var last := accepted[n - 1];
    assert last.at - accepted[n - 2].at > TimeoutAfter(last.increases);
    Pow2Monotone(n - 1, last.increases);
    assert Pow2(n) == 2 * Pow2(n - 1);
    if n == 2 {
      assert Pow2(1) == 2 * Pow2(0);
    } else {
      var shorter := accepted[..n - 1];
      GapsAddUp(shorter);
      assert shorter[|shorter| - 1] == accepted[n - 2];
    }
  }

  /** Accepted attempts on one map entry span more than 20ms * (2^j - 2), for j >= 2 of them. */
  ghost predicate Spread(accepted: seq<Accepted>) {
    |accepted| >= 2 ==>
      accepted[|accepted| - 1].at - accepted[0].at > INITIAL_TIMEOUT * (Pow2(|accepted|) - 2)
  }

  /** If each accepted attempt of one visitor fails and is counted before that visitor's
      next attempt, the attempts on an entry with at most 38 increases are spread, whatever
      other visitors, rejected attempts and cleanups do. */
  lemma GeometricLockout(expiresIn: int, start: int, events: seq<Event>, id: string)
    requires EachFailureCounted(Fresh(expiresIn, start), events, id)
    requires id in Run(Fresh(expiresIn, start), events).records
    requires Run(Fresh(expiresIn, start), events).records[id].increases <= 38
    ensures Spread(Run(Fresh(expiresIn, start), events).records[id].accepted)
  {
    ReachableEntry(expiresIn, start, events, id);
    CountedRun(Fresh(expiresIn, start), events, id);
    var accepted := Run(Fresh(expiresIn, start), events).records[id].accepted;
    if |accepted| >= 2 {
      GapsAddUp(accepted);
    }
  }

  lemma AtMost38(accepted: seq<Accepted>)
    requires GapsOk(accepted) && InOrder(accepted)
    requires forall i | 0 <= i < |accepted| :: accepted[i].increases == i
    requires accepted != [] ==> accepted[|accepted| - 1].at - accepted[0].at <= MAX_INT64
    ensures |accepted| <= 38
  {
    if |accepted| >= 39 {
      var first := accepted[..39];
      GapsAddUp(first);
      Pow2Values();
    }
  }

  /** When each accepted attempt is counted exactly once, the wrapped timeouts are out of
      reach: an entry whose attempts span no more than an int64 of nanoseconds (292
      years) has at most 38 accepted attempts, hence an exact timeout. */
  lemma OverflowUnreachable(expiresIn: int, start: int, events: seq<Event>, id: string)
    requires EachFailureCountedOnce(Fresh(expiresIn, start), events, id)
    requires id in Run(Fresh(expiresIn, start), events).records
    requires var accepted := Run(Fresh(expiresIn, start), events).records[id].accepted;
      accepted != [] ==> accepted[|accepted| - 1].at - accepted[0].at <= MAX_INT64
    ensures var t := Run(Fresh(expiresIn, start), events);
      && |t.records[id].accepted| <= 38
      && id in t.store.visitors
      && t.store.visitors[id].timeout == TimeoutAfter(t.records[id].increases)
  {
    var t := Run(Fresh(expiresIn, start), events);
    ReachableEntry(expiresIn, start, events, id);
    CountedOnceRun(Fresh(expiresIn, start), events, id);
    AtMost38(t.records[id].accepted);
    TimeoutInEveryState(expiresIn, start, events, id);
  }

  lemma {:induction false} CountedOnceIsCounted(t: Tracked, events: seq<Event>, id: string)
    requires EachFailureCountedOnce(t, events, id)
    ensures EachFailureCounted(t, events, id)
    decreases |events|
  {
    if events != [] {
      CountedOnceIsCounted(Step(t, events[0]), events[1..], id);
    }
  }

  /** When each accepted attempt is counted exactly once the attempts are spread with no
      bound on the increases, over any span that an int64 of nanoseconds can measure. */
  lemma GeometricLockoutCountedOnce(expiresIn: int, start: int, events: seq<Event>, id: string)
    requires EachFailureCountedOnce(Fresh(expiresIn, start), events, id)
    requires id in Run(Fresh(expiresIn, start), events).records
    requires var accepted := Run(Fresh(expiresIn, start), events).records[id].accepted;
      accepted != [] ==> accepted[|accepted| - 1].at - accepted[0].at <= MAX_INT64
    ensures Spread(Run(Fresh(expiresIn, start), events).records[id].accepted)
  {
    OverflowUnreachable(expiresIn, start, events, id);
    CountedOnceRun(Fresh(expiresIn, start), events, id);
    CountedOnceIsCounted(Fresh(expiresIn, start), events, id);
    GeometricLockout(expiresIn, start, events, id);
  }

  // ---------- who is let through ----------

  /** When the last of the visitor's attempts was made, accepted or refused, if the clock
      stands so and the last one before was then. */
  function LastAttempt(clock: int, last: Option<int>, events: seq<Event>, id: string): Option<int>
    decreases |events|
  {
    if events == [] then last
    else
      match events[0]
      case Attempt(v, elapsed, _) =>
        LastAttempt(clock + elapsed, if v == id then Some(clock + elapsed) else last, events[1..], id)
      case _ => LastAttempt(clock, last, events[1..], id)
  }

  ghost predicate SeenLast(t: Tracked, id: string, last: Option<int>) {
    id in t.store.visitors ==> last == Some(t.store.visitors[id].lastSeen)
  }

  lemma StepSeen(t: Tracked, e: Event, id: string, last: Option<int>)
    requires SeenLast(t, id, last)
    ensures e.Attempt? ==> Step(t, e).clock == t.clock + e.elapsed
    ensures !e.Attempt? ==> Step(t, e).clock == t.clock
    ensures SeenLast(Step(t, e), id, if e.Attempt? && e.id == id then Some(t.clock + e.elapsed) else last)
  {
  }

  lemma {:induction false} RunSeen(t: Tracked, events: seq<Event>, id: string, last: Option<int>)
    requires SeenLast(t, id, last)
    ensures SeenLast(Run(t, events), id, LastAttempt(t.clock, last, events, id))
    decreases |events|
  {
    if events != [] {
      var e := events[0];
      StepSeen(t, e, id, last);
      RunSeen(Step(t, e), events[1..], id, if e.Attempt? && e.id == id then Some(t.clock + e.elapsed) else last);
    }
  }

  /** In every reachable state: a visitor on the map with at most 38 increases is let through
      exactly when the token bucket agrees and the last attempt, accepted or refused, was
      more than 20ms * 2^k ago; a visitor that is not on the map exactly when the bucket
      agrees, from 20ms after Go's zero time on. */
  lemma LetThroughExactly(expiresIn: int, start: int, events: seq<Event>, id: string, elapsed: nat, bucket: bool)
    ensures
      var t := Run(Fresh(expiresIn, start), events);
      var now, last := t.clock + elapsed, LastAttempt(start, None, events, id);
      && (id in t.records && t.records[id].increases <= 38 ==>
            && last.Some?
            && (Allowed(t.store, id, now, bucket) <==>
                  bucket && now - last.value > 20_000_000 * Pow2(t.records[id].increases)))
      && (id !in t.records ==> (Allowed(t.store, id, now, bucket) <==> bucket && now > 20_000_000))
  {
    var t := Run(Fresh(expiresIn, start), events);
    RunSeen(Fresh(expiresIn, start), events, id, None);
    RunKeepsInv(Fresh(expiresIn, start), events);
    if id in t.records && t.records[id].increases <= 38 {
      TimeoutInEveryState(expiresIn, start, events, id);
      BelowSaturation(t.records[id].increases);
    }
  }

  /** Where the subtraction of instants saturates it exceeds every such timeout. */
  lemma BelowSaturation(increases: nat)
    requires increases <= 38
    ensures TimeoutAfter(increases) < MAX_INT64
  {
    Pow2Monotone(increases, 38);
    Pow2Values();
  }

  /** A success takes the visitor off the map, so its next attempt counts as a first one. */
  lemma SuccessForgets(t: Tracked, id: string, elapsed: nat, bucket: bool)
    ensures var t' := Step(t, Success(id));
      && id !in t'.store.visitors && id !in t'.records
      && (Allowed(t'.store, id, t'.clock + elapsed, bucket) <==> bucket && t'.clock + elapsed > 20_000_000)
  {
  }

  // ---------- once around int64 ----------

  /** Long enough after an attempt that nothing was counted for. */
  const PAUSE := 21_000_000

  function Attempts(id: string, count: nat): seq<Event> {
    if count == 0 then [] else [Attempt(id, PAUSE, true)] + Attempts(id, count - 1)
  }

  function Failures(id: string, count: nat): seq<Event> {
    if count == 0 then [] else [Failure(id)] + Failures(id, count - 1)
  }

  lemma RunCons(t: Tracked, e: Event, rest: seq<Event>)
    ensures Run(t, [e] + rest) == Run(Step(t, e), rest)
  {
    assert ([e] + rest)[1..] == rest;
  }

  lemma {:induction false} RunAppend(t: Tracked, a: seq<Event>, b: seq<Event>)
    ensures Run(t, a + b) == Run(Run(t, a), b)
    decreases |a|
  {
    if a == [] {
      assert a + b == b;
    } else {
      assert (a + b)[1..] == a[1..] + b;
      RunAppend(Step(t, a[0]), a[1..], b);
    }
  }

  /** The visitor was seen just now, with that many increases counted on its entry. */
  ghost predicate JustSeen(t: Tracked, id: string, increases: nat) {
    && id in t.records && t.records[id].increases == increases
    && id in t.store.visitors
    && t.store.visitors[id] == Visitor(t.clock, HeldTimeout(increases), ATTEMPTS_EXPIRATION)
  }

  /** The visitor is not on the map. */
  ghost predicate NotSeen(t: Tracked, id: string) {
    t.clock >= 0 && id !in t.records && id !in t.store.visitors
  }

  function AttemptsOf(t: Tracked, id: string): seq<Accepted> {
    RecordOf(t, id).accepted
  }

  /** A visitor whose held timeout is shorter than the pause is let through. */
  lemma AttemptAccepted(t: Tracked, id: string, elapsed: nat, increases: nat)
    requires JustSeen(t, id, increases) && HeldTimeout(increases) < elapsed <= PAUSE
    ensures Allowed(t.store, id, t.clock + elapsed, true)
    ensures JustSeen(Step(t, Attempt(id, elapsed, true)), id, increases)
  {
  }

  lemma AttemptListed(t: Tracked, id: string, elapsed: nat, increases: nat)
    requires JustSeen(t, id, increases) && HeldTimeout(increases) < elapsed <= PAUSE
    ensures AttemptsOf(Step(t, Attempt(id, elapsed, true)), id)
         == AttemptsOf(t, id) + [Accepted(t.clock + elapsed, increases)]
  {
    AttemptAccepted(t, id, elapsed, increases);
  }

  lemma FirstAccepted(t: Tracked, id: string)
    requires NotSeen(t, id)
    ensures Allowed(t.store, id, t.clock + PAUSE, true)
    ensures JustSeen(Step(t, Attempt(id, PAUSE, true)), id, 0)
  {
  }

  lemma FirstListed(t: Tracked, id: string)
    requires NotSeen(t, id)
    ensures AttemptsOf(Step(t, Attempt(id, PAUSE, true)), id) == [Accepted(t.clock + PAUSE, 0)]
  {
    FirstAccepted(t, id);
  }

  lemma FailureCounted(t: Tracked, id: string, increases: nat)
    requires JustSeen(t, id, increases)
    ensures var t' := Step(t, Failure(id));
      JustSeen(t', id, increases + 1) && t'.clock == t.clock && AttemptsOf(t', id) == AttemptsOf(t, id)
  {
  }

  lemma {:induction false} FailuresCounted(t: Tracked, id: string, increases: nat, count: nat)
    requires JustSeen(t, id, increases)
    ensures var t' := Run(t, Failures(id, count));
      JustSeen(t', id, increases + count) && t'.clock == t.clock && AttemptsOf(t', id) == AttemptsOf(t, id)
    decreases count
  {
    if count > 0 {
      RunCons(t, Failure(id), Failures(id, count - 1));
      FailureCounted(t, id, increases);
      FailuresCounted(Step(t, Failure(id)), id, increases + 1, count - 1);
    }
  }

  lemma {:induction false} AttemptsAccepted(t: Tracked, id: string, count: nat)
    requires JustSeen(t, id, 0)
    ensures JustSeen(Run(t, Attempts(id, count)), id, 0)
    decreases count
  {
    if count > 0 {
      RunCons(t, Attempt(id, PAUSE, true), Attempts(id, count - 1));
      AttemptAccepted(t, id, PAUSE, 0);
      AttemptsAccepted(Step(t, Attempt(id, PAUSE, true)), id, count - 1);
    }
  }

  /** What an event means for a visitor's requests: one is let through, or one ends. */
  datatype Mark = In | Out

  function MarkOf(t: Tracked, e: Event, id: string): seq<Mark> {
    if e.id != id then []
    else if !e.Attempt? then [Out]
    else if Allowed(t.store, id, t.clock + e.elapsed, e.bucket) then [In]
    else []
  }

  function Marks(t: Tracked, events: seq<Event>, id: string): seq<Mark>
    decreases |events|
  {
    if events == [] then [] else MarkOf(t, events[0], id) + Marks(Step(t, events[0]), events[1..], id)
  }

  /** Never more requests end than were let through. */
  predicate Balanced(marks: seq<Mark>, inFlight: nat) {
    if marks == [] then true
    else if marks[0] == In then Balanced(marks[1..], inFlight + 1)
    else inFlight > 0 && Balanced(marks[1..], inFlight - 1)
  }

  /** The events of a visitor come from requests: each failure or success ends one that was
      let through and is still being served. */
  predicate OfRequests(t: Tracked, events: seq<Event>, id: string) {
    Balanced(Marks(t, events, id), 0)
  }

  lemma MarksCons(t: Tracked, e: Event, rest: seq<Event>, id: string)
    ensures Marks(t, [e] + rest, id) == MarkOf(t, e, id) + Marks(Step(t, e), rest, id)
  {
    assert ([e] + rest)[0] == e && ([e] + rest)[1..] == rest;
  }

  lemma SeqAssociative(x: seq<Mark>, y: seq<Mark>, z: seq<Mark>)
    ensures (x + y) + z == x + (y + z)
  {
  }

  lemma {:induction false} MarksAppend(t: Tracked, a: seq<Event>, b: seq<Event>, id: string)
    ensures Marks(t, a + b, id) == Marks(t, a, id) + Marks(Run(t, a), b, id)
    decreases |a|
  {
    if a == [] {
      assert a + b == b;
    } else {
      var e, rest := a[0], a[1..];
      assert (a + b)[0] == e && (a + b)[1..] == rest + b;
      MarksAppend(Step(t, e), rest, b, id);
      SeqAssociative(MarkOf(t, e, id), Marks(Step(t, e), rest, id), Marks(Run(t, a), b, id));
    }
  }

  function Times(mark: Mark, count: nat): seq<Mark> {
    if count == 0 then [] else [mark] + Times(mark, count - 1)
  }

  lemma InMark(t: Tracked, id: string, count: nat)
    requires count >= 1 && Allowed(t.store, id, t.clock + PAUSE, true)
    requires Marks(Step(t, Attempt(id, PAUSE, true)), Attempts(id, count - 1), id) == Times(In, count - 1)
    ensures Marks(t, Attempts(id, count), id) == Times(In, count)
  {
    MarksCons(t, Attempt(id, PAUSE, true), Attempts(id, count - 1), id);
  }

  lemma {:induction false} AttemptsMarks(t: Tracked, id: string, count: nat)
    requires JustSeen(t, id, 0)
    ensures Marks(t, Attempts(id, count), id) == Times(In, count)
    decreases count
  {
    if count > 0 {
      AttemptAccepted(t, id, PAUSE, 0);
      AttemptsMarks(Step(t, Attempt(id, PAUSE, true)), id, count - 1);
      InMark(t, id, count);
    }
  }

  lemma {:induction false} FailuresMarks(t: Tracked, id: string, count: nat)
    ensures Marks(t, Failures(id, count), id) == Times(Out, count)
    decreases count
  {
    if count > 0 {
      FailuresMarks(Step(t, Failure(id)), id, count - 1);
      MarksCons(t, Failure(id), Failures(id, count - 1), id);
    }
  }

  lemma {:induction false} AllOutBalanced(inFlight: nat)
    ensures Balanced(Times(Out, inFlight), inFlight)
  {
    if inFlight > 0 {
      AllOutBalanced(inFlight - 1);
      assert Times(Out, inFlight)[1..] == Times(Out, inFlight - 1);
    }
  }

  lemma {:induction false} InThenOutBalanced(count: nat, inFlight: nat)
    ensures Balanced(Times(In, count) + Times(Out, inFlight + count), inFlight)
    decreases count
  {
    var out := Times(Out, inFlight + count);
    if count == 0 {
      assert [] + out == out;
      AllOutBalanced(inFlight);
    } else {
      var marks := Times(In, count) + out;
      assert marks[0] == In && marks[1..] == Times(In, count - 1) + out;
      InThenOutBalanced(count - 1, inFlight + 1);
    }
  }

  lemma HeldAt39()
    ensures HeldTimeout(39) == -7_451_627_795_949_551_616
    ensures TimeoutAfter(39) == 10_995_116_277_760_000_000
  {
    Pow2Values();
    HeldIsExact(38);
    assert HeldTimeout(39) == Int64(2 * HeldTimeout(38));
  }

  /** So many requests of one visitor and one more, 21ms apart, all let through while none
      has failed yet, and then the failure of each. */
  function InFlightEvents(id: string, more: nat): seq<Event> {
    [Attempt(id, PAUSE, true)] + (Attempts(id, more) + Failures(id, more + 1))
  }

  lemma RestFails(t: Tracked, id: string, more: nat, failures: nat)
    requires JustSeen(t, id, 0)
    ensures JustSeen(Run(t, Attempts(id, more) + Failures(id, failures)), id, failures)
  {
    AttemptsAccepted(t, id, more);
    FailOne(Run(t, Attempts(id, more)), id, failures);
    RunJoins(t, Attempts(id, more), Failures(id, failures), id, failures);
  }

  lemma FailOne(t: Tracked, id: string, failures: nat)
    requires JustSeen(t, id, 0)
    ensures JustSeen(Run(t, Failures(id, failures)), id, failures)
  {
    FailuresCounted(t, id, 0, failures);
  }

  lemma RunJoins(t: Tracked, a: seq<Event>, b: seq<Event>, id: string, increases: nat)
    requires JustSeen(Run(Run(t, a), b), id, increases)
    ensures JustSeen(Run(t, a + b), id, increases)
  {
    RunAppend(t, a, b);
  }

  lemma RestMarked(t: Tracked, id: string, more: nat)
    requires JustSeen(t, id, 0)
    ensures Balanced(Marks(t, Attempts(id, more) + Failures(id, more + 1), id), 1)
  {
    AttemptsMarks(t, id, more);
    FailuresMarks(Run(t, Attempts(id, more)), id, more + 1);
    MarksAppend(t, Attempts(id, more), Failures(id, more + 1), id);
    InThenOutBalanced(more, 1);
  }

  lemma FirstMarked(t: Tracked, e: Event, rest: seq<Event>, id: string)
    requires MarkOf(t, e, id) == [In] && Balanced(Marks(Step(t, e), rest, id), 1)
    ensures OfRequests(t, [e] + rest, id)
  {
    MarksCons(t, e, rest, id);
    var marks := Marks(Step(t, e), rest, id);
    assert ([In] + marks)[0] == In && ([In] + marks)[1..] == marks;
  }

  lemma FailInFlight(t: Tracked, id: string, more: nat)
    requires NotSeen(t, id)
    ensures JustSeen(Run(t, InFlightEvents(id, more)), id, more + 1)
  {
    FirstAccepted(t, id);
    RestFails(Step(t, Attempt(id, PAUSE, true)), id, more, more + 1);
    RunCons(t, Attempt(id, PAUSE, true), Attempts(id, more) + Failures(id, more + 1));
  }

  lemma InFlightOfRequests(t: Tracked, id: string, more: nat)
    requires NotSeen(t, id)
    ensures OfRequests(t, InFlightEvents(id, more), id)
  {
    FirstAccepted(t, id);
    RestMarked(Step(t, Attempt(id, PAUSE, true)), id, more);
    FirstMarked(t, Attempt(id, PAUSE, true), Attempts(id, more) + Failures(id, more + 1), id);
  }

  /** Once around: 39 requests in flight at a time fail, and the timeout is negative, no
      longer the doubled one, and delays nobody: only the token bucket is left. */
  lemma WrapsAfter39(expiresIn: int, start: nat, id: string, more: nat, elapsed: nat, bucket: bool)
    requires more + 1 == 39
    ensures OfRequests(Fresh(expiresIn, start), InFlightEvents(id, more), id)
    ensures var t := Run(Fresh(expiresIn, start), InFlightEvents(id, more));
      && id in t.store.visitors
      && t.store.visitors[id].timeout == -7_451_627_795_949_551_616 != TimeoutAfter(39)
      && Allowed(t.store, id, t.clock + elapsed, bucket) == bucket
  {
    InFlightWrapped(Fresh(expiresIn, start), id, more, elapsed, bucket);
  }

  lemma InFlightWrapped(t: Tracked, id: string, more: nat, elapsed: nat, bucket: bool)
    requires NotSeen(t, id) && more + 1 == 39
    ensures OfRequests(t, InFlightEvents(id, more), id)
    ensures NegativeTimeout(Run(t, InFlightEvents(id, more)), id, elapsed, bucket)
  {
    FailInFlight(t, id, more);
    InFlightOfRequests(t, id, more);
    NegativeDelaysNobody(Run(t, InFlightEvents(id, more)), id, more + 1, elapsed, bucket);
  }

  predicate NegativeTimeout(t: Tracked, id: string, elapsed: nat, bucket: bool) {
    && id in t.store.visitors
    && t.store.visitors[id].timeout == -7_451_627_795_949_551_616 != TimeoutAfter(39)
    && Allowed(t.store, id, t.clock + elapsed, bucket) == bucket
  }

  lemma NegativeDelaysNobody(t: Tracked, id: string, increases: nat, elapsed: nat, bucket: bool)
    requires JustSeen(t, id, increases) && increases == 39
    ensures NegativeTimeout(t, id, elapsed, bucket)
  {
    HeldAt39();
  }

  // ---------- the bound of the lock-out is exact ----------

  /** With so many increases on an entry, its attempts are spread in every run. */
  ghost predicate AlwaysSpread(increases: nat) {
    forall expiresIn, start, events, id ::
      SpreadWith(Fresh(expiresIn, start), events, id, increases)
  }

  ghost predicate SpreadWith(t: Tracked, events: seq<Event>, id: string, increases: nat) {
    var t' := Run(t, events);
    EachFailureCounted(t, events, id) && id in t'.records && t'.records[id].increases == increases ==>
      Spread(t'.records[id].accepted)
  }

  lemma {:induction false} FailuresThenCounted(t: Tracked, id: string, count: nat, rest: seq<Event>)
    requires EachFailureCounted(Run(t, Failures(id, count)), rest, id)
    ensures EachFailureCounted(t, Failures(id, count) + rest, id)
    decreases count
  {
    if count == 0 {
      assert [] + rest == rest;
    } else {
      var events := Failures(id, count) + rest;
      assert events[0] == Failure(id) && events[1..] == Failures(id, count - 1) + rest;
      RunCons(t, Failure(id), Failures(id, count - 1));
      FailuresThenCounted(Step(t, Failure(id)), id, count - 1, rest);
    }
  }

  function TwoAttempts(id: string, between: nat, more: nat): seq<Event> {
    [Attempt(id, PAUSE, true)] + (Failures(id, between) + ([Attempt(id, 0, true)] + Failures(id, more)))
  }

  lemma CountedCons(t: Tracked, e: Event, rest: seq<Event>, id: string)
    requires e.Attempt? && e.id == id ==> RecordOf(t, id).increases >= |RecordOf(t, id).accepted|
    requires EachFailureCounted(Step(t, e), rest, id)
    ensures EachFailureCounted(t, [e] + rest, id)
  {
    assert ([e] + rest)[0] == e && ([e] + rest)[1..] == rest;
  }

  lemma FailuresAreCounted(t: Tracked, id: string, count: nat)
    ensures EachFailureCounted(t, Failures(id, count), id)
  {
    assert Failures(id, count) + [] == Failures(id, count);
    FailuresThenCounted(t, id, count, []);
  }

  /** From the state after the failures of one attempt, a second is accepted at once, and
      more failures may follow. */
  lemma SecondAtOnce(t: Tracked, id: string, between: nat, more: nat)
    requires JustSeen(t, id, between) && HeldTimeout(between) < 0 < between && |AttemptsOf(t, id)| == 1
    ensures var events := [Attempt(id, 0, true)] + Failures(id, more);
      && EachFailureCounted(t, events, id)
      && JustSeen(Run(t, events), id, between + more)
      && AttemptsOf(Run(t, events), id) == AttemptsOf(t, id) + [Accepted(t.clock, between)]
  {
    var second, last := Attempt(id, 0, true), Failures(id, more);
    AttemptAccepted(t, id, 0, between);
    AttemptListed(t, id, 0, between);
    FailuresCounted(Step(t, second), id, between, more);
    RunCons(t, second, last);
    FailuresAreCounted(Step(t, second), id, more);
    CountedCons(t, second, last, id);
  }

  lemma TwoAtOnce(id: string, between: nat, more: nat)
    requires between == 39
    ensures !SpreadWith(Fresh(0, 0), TwoAttempts(id, between, more), id, between + more)
  {
    var t0, first := Fresh(0, 0), Attempt(id, PAUSE, true);
    var failures, tail := Failures(id, between), [Attempt(id, 0, true)] + Failures(id, more);
    FirstAccepted(t0, id);
    FirstListed(t0, id);
    var t1 := Step(t0, first);
    FailuresCounted(t1, id, 0, between);
    HeldAt39();
    SecondAtOnce(Run(t1, failures), id, between, more);
    RunCons(t0, first, failures + tail);
    RunAppend(t1, failures, tail);
    FailuresThenCounted(t1, id, between, tail);
    CountedCons(t0, first, failures + tail, id);
    NotSpread(AttemptsOf(Run(t0, TwoAttempts(id, between, more)), id));
  }

  lemma NotSpread(accepted: seq<Accepted>)
    requires |accepted| == 2 && accepted[0].at == accepted[1].at
    ensures !Spread(accepted)
  {
    assert Pow2(2) == 4;
  }

  /** The lock-out is geometric on every entry with so many increases exactly up to 38. */
  lemma LockoutBoundExact(increases: nat)
    ensures AlwaysSpread(increases) <==> increases <= 38
  {
    if increases <= 38 {
      forall expiresIn, start, events, id
        ensures SpreadWith(Fresh(expiresIn, start), events, id, increases)
      {
        var t' := Run(Fresh(expiresIn, start), events);
        if EachFailureCounted(Fresh(expiresIn, start), events, id)
           && id in t'.records && t'.records[id].increases == increases {
          GeometricLockout(expiresIn, start, events, id);
        }
      }
    } else {
      TwoAtOnce("v", 39, increases - 39);
    }
  }
}
