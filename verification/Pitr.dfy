/** The point-in-time recovery window of a database cluster
    (internal/server/handlers/k8s/database_cluster.go). Instants are nanoseconds since Go's
    zero time. */
module Pitr {
  import opened Wrappers
  import opened Integers

  const SECOND := NANOS_PER_SECOND

  datatype Backup = Backup(
    name: string,
    succeeded: bool,
    createdAt: Option<int>,
    completedAt: Option<int>,
    latestRestorableTime: Option<int>,
    gaps: bool)

  datatype EngineType = PXC | PSMDB | Postgresql | OtherEngine

  /** The engine's version is None when it cannot be parsed. */
  datatype Engine = Engine(kind: EngineType, version: Option<(nat, nat, nat)>)

  datatype Cluster = Cluster(engine: Engine, pitrEnabled: bool, uploadIntervalSec: Option<int>)

  datatype Window = Window(
    latest: Option<int>,
    earliest: Option<int>,
    backupName: Option<string>,
    gaps: Option<bool>)

  const NO_WINDOW := Window(None, None, None, None)

  /** A succeeded backup without a completion time is dereferenced all the same. */
  datatype Failure = NilDereference

  // ---------- the comparator ----------

  function SortFunc(a: Backup, b: Backup): int {
    if a.createdAt.None? then 1
    else if b.createdAt.None? then -1
    else if b.createdAt.value > a.createdAt.value then 1
    else -1
  }

  /** b is no newer than a; a missing time is older than every time. */
  predicate NewerFirst(a: Backup, b: Backup) {
    b.createdAt.None? || (a.createdAt.Some? && a.createdAt.value >= b.createdAt.value)
  }

  /** The comparator puts exactly one of two backups before the other when and only when
      their creation times differ. On equal times each is before the other, and of two
      missing times neither is. */
  lemma ComparatorDecidesExactly(a: Backup, b: Backup)
    ensures (SortFunc(a, b) < 0) != (SortFunc(b, a) < 0) <==> a.createdAt != b.createdAt
  {
  }

  /** Go's sort asks this of a comparator on the elements of a list: of two at different
      places not each is before the other, being before is transitive, and so is being
      neither before nor after. */
  predicate StrictWeakOrder(backups: seq<Backup>) {
    && (forall i, j | 0 <= i < j < |backups| ::
          !(SortFunc(backups[i], backups[j]) < 0 && SortFunc(backups[j], backups[i]) < 0))
    && (forall a, b, c | a in backups && b in backups && c in backups ::
          SortFunc(a, b) < 0 && SortFunc(b, c) < 0 ==> SortFunc(a, c) < 0)
    && (forall a, b, c | a in backups && b in backups && c in backups ::
          Tied(a, b) && Tied(b, c) ==> Tied(a, c))
  }

  predicate Tied(a: Backup, b: Backup) {
    SortFunc(a, b) >= 0 && SortFunc(b, a) >= 0
  }

  /** No creation time occurs twice. Any number may be missing. */
  predicate TimesDiffer(backups: seq<Backup>) {
    forall i, j | 0 <= i < j < |backups| ::
      backups[i].createdAt.Some? ==> backups[i].createdAt != backups[j].createdAt
  }

  /** The comparator meets the demands exactly on the lists in which no creation time
      occurs twice. */
  lemma ComparatorOrdersExactly(backups: seq<Backup>)
    ensures StrictWeakOrder(backups) <==> TimesDiffer(backups)
  {
    if StrictWeakOrder(backups) {
      forall i, j | 0 <= i < j < |backups|
        ensures backups[i].createdAt.Some? ==> backups[i].createdAt != backups[j].createdAt
      {
        ComparatorDecidesExactly(backups[i], backups[j]);
      }
    }
  }

  /** Two backups of one time: each is before the other. */
  lemma TieExample(a: Backup, b: Backup, time: int)
    requires a.createdAt == Some(time) == b.createdAt
    ensures SortFunc(a, b) < 0 && SortFunc(b, a) < 0 && !StrictWeakOrder([a, b])
  {
    ComparatorOrdersExactly([a, b]);
    assert [a, b][0] == a && [a, b][1] == b;
  }

  /** What a sort promises that relies on the comparator alone. */
  ghost predicate SortedByComparator(backups: seq<Backup>) {
    forall i, j | 0 <= i < j < |backups| :: SortFunc(backups[j], backups[i]) >= 0
  }

  predicate SortedNewestFirst(backups: seq<Backup>) {
    forall i, j | 0 <= i < j < |backups| :: NewerFirst(backups[i], backups[j])
  }

  // ---------- the backup in use ----------

  /** r is a succeeded backup than which no succeeded one is newer; there is none only if
      no backup succeeded. */
  ghost predicate NewestSucceeded(backups: seq<Backup>, r: Option<Backup>) {
    match r
    case None => forall b | b in backups :: !b.succeeded
    case Some(n) => n in backups && n.succeeded && forall b | b in backups && b.succeeded :: NewerFirst(n, b)
  }

  function FirstSucceeded(backups: seq<Backup>): Option<Backup> {
    if backups == [] then None
    else if backups[0].succeeded then Some(backups[0])
    else FirstSucceeded(backups[1..])
  }

  lemma {:induction false} FirstOfSortedIsNewest(backups: seq<Backup>)
    requires SortedNewestFirst(backups)
    ensures NewestSucceeded(backups, FirstSucceeded(backups))
  {
    if backups != [] {
      var rest := backups[1..];
      assert backups == [backups[0]] + rest;
      if backups[0].succeeded {
        forall b | b in rest
          ensures NewerFirst(backups[0], b)
        {
          var i :| 0 <= i < |rest| && rest[i] == b;
          assert backups[i + 1] == b;
        }
      } else {
        FirstOfSortedIsNewest(rest);
      }
    }
  }

  /** Whichever algorithm sorts them: if two orders of the same backups both agree with the
      comparator, the handler gets the same backup from both, unless no succeeded backup has
      a creation time, and then it answers without a window either way. */
  lemma AnySortAgrees(backups: seq<Backup>, a: seq<Backup>, b: seq<Backup>)
    requires multiset(a) == multiset(backups) == multiset(b)
    requires SortedByComparator(a) && SortedByComparator(b)
    ensures NewestSucceeded(backups, FirstSucceeded(a))
    ensures NewestSucceeded(backups, FirstSucceeded(b))
    ensures
      || FirstSucceeded(a) == FirstSucceeded(b)
      || forall x | x in backups && x.succeeded :: x.createdAt.None?
  {
    FirstOfSortedIsNewest(a);
    FirstOfSortedIsNewest(b);
    SameMembers(a, backups);
    SameMembers(b, backups);
    var x, y := FirstSucceeded(a), FirstSucceeded(b);
    if x.Some? && y.Some? && x != y {
      assert NewerFirst(x.value, y.value) && NewerFirst(y.value, x.value);
      SortedTimesDiffer(a);
    }
  }

  lemma SortedTimesDiffer(a: seq<Backup>)
    requires SortedByComparator(a)
    ensures forall x, y | x in a && y in a && x.createdAt.Some? && x.createdAt == y.createdAt :: x == y
  {
    assert forall i, j | 0 <= i < |a| && 0 <= j < |a| && a[i].createdAt.Some? && a[i].createdAt == a[j].createdAt ::
      SortFunc(a[i], a[j]) < 0 && i == j;
  }

  lemma SameMembers(a: seq<Backup>, b: seq<Backup>)
    requires multiset(a) == multiset(b)
    ensures forall x :: x in a <==> x in b
  {
    forall x
      ensures x in a <==> x in b
    {
      assert x in a <==> x in multiset(a);
      assert x in b <==> x in multiset(b);
    }
  }

  function Swapped(a: seq<Backup>, j: nat): seq<Backup>
    requires 0 < j < |a|
  {
    a[j - 1 := a[j]][j := a[j - 1]]
  }

  /** Sorted up to i, if the backup at j moves down far enough. */
  ghost predicate SortedBut(a: seq<Backup>, i: nat, j: nat)
    requires j <= i < |a|
  {
    forall p, q | 0 <= p < q <= i && q != j :: NewerFirst(a[p], a[q])
  }

  lemma SwapMovesDown(a: seq<Backup>, i: nat, j: nat)
    requires 0 < j <= i < |a|
    requires SortedBut(a, i, j) && SortFunc(a[j], a[j - 1]) < 0
    ensures SortedBut(Swapped(a, j), i, j - 1)
    ensures multiset(Swapped(a, j)) == multiset(a)
  {
    var b := Swapped(a, j);
    forall p, q | 0 <= p < q <= i && q != j - 1
      ensures NewerFirst(b[p], b[q])
    {
      if q == j && p < j - 1 {
        assert NewerFirst(a[p], a[j - 1]);
      }
    }
  }

  lemma MovedDown(a: seq<Backup>, i: nat, j: nat)
    requires j <= i < |a|
    requires SortedBut(a, i, j) && (j == 0 || SortFunc(a[j], a[j - 1]) >= 0)
    ensures SortedNewestFirst(a[..i + 1])
  {
    forall p, q | 0 <= p < q <= i
      ensures NewerFirst(a[p], a[q])
    {
      if q == j && p < j - 1 {
        assert NewerFirst(a[p], a[j - 1]);
      }
    }
  }

  /** Moves the backup at i down to its place among the ones before it. */
  method InsertBackup(backups: array<Backup>, i: nat)
    requires i < backups.Length
    requires SortedNewestFirst(backups[..i])
    modifies backups
    ensures multiset(backups[..]) == multiset(old(backups[..]))
    ensures SortedNewestFirst(backups[..i + 1])
  {
    var j := i;
    while j > 0 && SortFunc(backups[j], backups[j - 1]) < 0
      invariant 0 <= j <= i
      invariant multiset(backups[..]) == multiset(old(backups[..]))
      invariant SortedBut(backups[..], i, j)
    {
      SwapMovesDown(backups[..], i, j);
      ghost var swapped := Swapped(backups[..], j);
      backups[j], backups[j - 1] := backups[j - 1], backups[j];
      assert backups[..] == swapped;
      j := j - 1;
    }
    MovedDown(backups[..], i, j);
    assert backups[..][..i + 1] == backups[..i + 1];
  }

  const MAX_INSERTION := 12

  /** Go's sort puts the list in order: it is short enough to be sorted by insertion, which
      ties do not disturb, or the comparator meets the demands. */
  predicate Sortable(backups: seq<Backup>) {
    |backups| <= MAX_INSERTION || StrictWeakOrder(backups)
  }

  method InsertionSort(backups: array<Backup>)
    modifies backups
    ensures multiset(backups[..]) == multiset(old(backups[..]))
    ensures SortedNewestFirst(backups[..])
  {
    for i := 0 to backups.Length
      invariant multiset(backups[..]) == multiset(old(backups[..]))
      invariant SortedNewestFirst(backups[..i])
    {
      InsertBackup(backups, i);
    }
    assert backups[..backups.Length] == backups[..];
  }

  /** What is promised of longer lists: they are put in some order, and in order if the
      comparator meets the demands. */
  method SortLong(backups: array<Backup>)
    modifies backups
    ensures multiset(backups[..]) == multiset(old(backups[..]))
    ensures StrictWeakOrder(old(backups[..])) ==> SortedNewestFirst(backups[..])
  {
    var was, order: seq<Backup> := backups[..], *;
    InsertionSort(backups);
    if |order| == |was| && multiset(order) == multiset(was) && (StrictWeakOrder(was) ==> SortedNewestFirst(order)) {
      forall i | 0 <= i < backups.Length {
        backups[i] := order[i];
      }
      assert backups[..] == order;
    }
  }

  method SortBackups(backups: array<Backup>)
    modifies backups
    ensures multiset(backups[..]) == multiset(old(backups[..]))
    ensures Sortable(old(backups[..])) ==> SortedNewestFirst(backups[..])
  {
    if backups.Length <= MAX_INSERTION {
      InsertionSort(backups);
    } else {
      SortLong(backups);
    }
  }

  /** The backup that the handler may get: a succeeded one if any succeeded, and a newest
      such if the list can be put in order. */
  ghost predicate MayUse(backups: seq<Backup>, used: Option<Backup>) {
    && (used.None? ==> forall b | b in backups :: !b.succeeded)
    && (used.Some? ==> used.value in backups && used.value.succeeded)
    && (Sortable(backups) ==> NewestSucceeded(backups, used))
  }

  lemma {:induction false} FirstSucceededIsOne(backups: seq<Backup>)
    ensures var r := FirstSucceeded(backups);
      && (r.None? ==> forall b | b in backups :: !b.succeeded)
      && (r.Some? ==> r.value in backups && r.value.succeeded)
  {
    if backups != [] {
      assert backups == [backups[0]] + backups[1..];
      FirstSucceededIsOne(backups[1..]);
    }
  }

  lemma FirstMayBeUsed(backups: seq<Backup>, sorted: seq<Backup>)
    requires multiset(sorted) == multiset(backups)
    requires Sortable(backups) ==> SortedNewestFirst(sorted)
    ensures MayUse(backups, FirstSucceeded(sorted))
  {
    SameMembers(sorted, backups);
    FirstSucceededIsOne(sorted);
    if Sortable(backups) {
      FirstOfSortedIsNewest(sorted);
    }
  }

  method FindSucceeded(backups: array<Backup>) returns (first: Option<Backup>)
    ensures first == FirstSucceeded(backups[..])
  {
    for i := 0 to backups.Length
      invariant FirstSucceeded(backups[..]) == FirstSucceeded(backups[i..])
    {
      assert backups[i..][1..] == backups[i + 1..];
      if backups[i].succeeded {
        return Some(backups[i]);
      }
    }
    return None;
  }

  method LatestSuccessfulBackup(backups: array<Backup>) returns (latest: Option<Backup>)
    modifies backups
    ensures multiset(backups[..]) == multiset(old(backups[..]))
    ensures latest == FirstSucceeded(backups[..])
    ensures MayUse(old(backups[..]), latest)
  {
    SortBackups(backups);
    FirstMayBeUsed(old(backups[..]), backups[..]);
    latest := FindSucceeded(backups);
  }

  // ---------- the end of the window ----------

  /** time.Time.Truncate */
  function Truncate(t: int, d: int): int {
    if d <= 0 then t else t - t % d
  }

  /** -time.Duration(interval) * time.Second */
  function BackBy(interval: int): int {
    Int64(Int64(-interval) * SECOND)
  }

  /** The largest interval whose nanoseconds fit int64. */
  const MAX_INTERVAL := 9_223_372_036

  lemma BackByExact(interval: int)
    requires -MAX_INTERVAL <= interval <= MAX_INTERVAL
    ensures BackBy(interval) == -interval * SECOND
  {
  }

  lemma BackByWraps(interval: int)
    requires Int64(interval) == interval && !(-MAX_INTERVAL <= interval <= MAX_INTERVAL)
    ensures
      || BackBy(interval) + interval * SECOND >= 0x1_0000_0000_0000_0000
      || BackBy(interval) + interval * SECOND <= -0x1_0000_0000_0000_0000
  {
    if interval > -0x8000_0000_0000_0000 {
      assert Int64(-interval) == -interval;
      Int64Wraps(-interval * SECOND);
    }
  }

  function LatestRestorableDate(now: int, latestBackupTime: int, interval: int): Option<int> {
    if interval == 0 then None
    else
      var date := Truncate(now, now % SECOND) + BackBy(interval);
      if latestBackupTime > date then None else Some(date)
  }

  /** A returned date lies less than a second before now minus the interval, and not after
      it, exactly when the interval's nanoseconds fit int64. */
  lemma DateWithinASecond(now: int, latestBackupTime: int, interval: int)
    requires Int64(interval) == interval
    requires LatestRestorableDate(now, latestBackupTime, interval).Some?
    ensures
      var date := LatestRestorableDate(now, latestBackupTime, interval).value;
      now - interval * SECOND - SECOND < date <= now - interval * SECOND
      <==> -MAX_INTERVAL <= interval <= MAX_INTERVAL
  {
    TruncatedBy(now);
    if -MAX_INTERVAL <= interval <= MAX_INTERVAL {
      BackByExact(interval);
    } else {
      BackByWraps(interval);
    }
  }

  /** One second more than fits: the interval's nanoseconds wrap, and the date returned is
      292 years in the future. */
  lemma WrappedIntervalExample()
    ensures var now, interval := 63_900_000_000 * SECOND, MAX_INTERVAL + 1;
            var r := LatestRestorableDate(now, 63_800_000_000 * SECOND, interval);
      r.Some? && r.value > now
  {
  }

  lemma TruncatedBy(now: int)
    ensures now - SECOND < Truncate(now, now % SECOND) <= now
  {
  }

  /** The truncation is by the nanosecond part itself: nanoseconds are gone from the date
      exactly when there were none. */
  lemma WholeSecondsExactly(now: int, latestBackupTime: int, interval: int)
    requires LatestRestorableDate(now, latestBackupTime, interval).Some?
    requires -MAX_INTERVAL <= interval <= MAX_INTERVAL
    ensures
      LatestRestorableDate(now, latestBackupTime, interval).value % SECOND == 0
      <==> now % SECOND == 0
  {
    var d := now % SECOND;
    BackByExact(interval);
    var t := Truncate(now, d);
    ShiftBySeconds(t, -interval);
    if d > 0 {
      var r := now % d;
      assert 0 <= r < d;
      ShiftBySeconds(d - r, now / SECOND);
      assert t == (d - r) + now / SECOND * SECOND;
      assert (d - r) % SECOND == d - r;
    }
  }

  /** Half a second past a full one, the date keeps the half second. */
  lemma NanosecondsKeptExample()
    ensures LatestRestorableDate(63_900_000_000_500_000_000, 63_800_000_000_000_000_000, 60)
         == Some(63_899_999_940_500_000_000)
  {
  }

  lemma ShiftBySeconds(t: int, s: int)
    ensures (t + s * SECOND) % SECOND == t % SECOND
  {
  }

  /** A date is offered exactly when there is an interval and the backup was finished that
      long ago. */
  lemma DateOfferedExactly(now: int, latestBackupTime: int, interval: int)
    requires -MAX_INTERVAL <= interval <= MAX_INTERVAL
    ensures
      LatestRestorableDate(now, latestBackupTime, interval).Some?
      <==> interval != 0 && latestBackupTime + interval * SECOND <= Truncate(now, now % SECOND)
  {
    BackByExact(interval);
  }

  // ---------- the window ----------

  predicate Before1_14(v: (nat, nat, nat)) {
    v.0 < 1 || (v.0 == 1 && v.1 < 14)
  }

  function GetDefaultUploadInterval(engine: Engine, uploadInterval: Option<int>): int {
    if engine.version.None? then 0
    else
      match engine.kind
      case PXC => if Before1_14(engine.version.value) then uploadInterval.GetOr(60) else 0
      case PSMDB => uploadInterval.GetOr(600)
      case Postgresql => uploadInterval.GetOr(60)
      case OtherEngine => 0
  }

  function LatestDate(cluster: Cluster, b: Backup, backupTime: int, now: int): Option<int> {
    if b.latestRestorableTime.Some? && cluster.engine.kind != PSMDB then
      if b.latestRestorableTime.value > backupTime then b.latestRestorableTime else None
    else LatestRestorableDate(now, backupTime, GetDefaultUploadInterval(cluster.engine, cluster.uploadIntervalSec))
  }

  /** Which backups can ever give a window: those whose record lies after their completion,
      unless the engine's records are not relied on, and without a usable record those of an
      engine that needs the heuristic. */
  lemma WindowPossibleExactly(cluster: Cluster, b: Backup, backupTime: int)
    requires var i := cluster.uploadIntervalSec.GetOr(60); i != 0 && -MAX_INTERVAL <= i <= MAX_INTERVAL
    ensures
      (exists now :: LatestDate(cluster, b, backupTime, now).Some?) <==>
        if b.latestRestorableTime.Some? && cluster.engine.kind != PSMDB
        then b.latestRestorableTime.value > backupTime
        else
          && cluster.engine.version.Some?
          && (cluster.engine.kind == PSMDB || cluster.engine.kind == Postgresql
              || (cluster.engine.kind == PXC && Before1_14(cluster.engine.version.value)))
  {
    var interval := GetDefaultUploadInterval(cluster.engine, cluster.uploadIntervalSec);
    var now := backupTime + (interval + 1) * SECOND;
    TruncatedBy(now);
    DateOfferedExactly(now, backupTime, interval);
    assert LatestDate(cluster, b, backupTime, now).Some? || interval == 0 || b.latestRestorableTime.Some?;
  }

  /** The answer when the given backup is the one in use. */
  function WindowFrom(cluster: Cluster, used: Option<Backup>, now: int): Result<Window, Failure> {
    if used.None? || used.value.createdAt.None? then Ok(NO_WINDOW)
    else if used.value.completedAt.None? then Err(NilDereference)
    else
      var b := used.value;
      var backupTime := b.completedAt.value;
      var latest := LatestDate(cluster, b, backupTime, now);
      Ok(Window(latest, if latest.Some? then Some(backupTime) else None, Some(b.name), Some(b.gaps)))
  }

  predicate Recoverable(cluster: Cluster) {
    cluster.pitrEnabled || cluster.engine.kind == Postgresql
  }

  /** The answer, for a backup that the handler may get if the cluster keeps logs at all. */
  ghost predicate Answers(cluster: Cluster, backups: seq<Backup>, now: int, r: Result<Window, Failure>) {
    if !Recoverable(cluster) then r == Ok(NO_WINDOW)
    else exists used :: MayUse(backups, used) && r == WindowFrom(cluster, used, now)
  }

  method GetDatabaseClusterPitr(cluster: Cluster, backups: array<Backup>, now: int) returns (r: Result<Window, Failure>)
    modifies backups
    ensures Answers(cluster, old(backups[..]), now, r)
  {
    if !cluster.pitrEnabled && cluster.engine.kind != Postgresql {
      return Ok(NO_WINDOW);
    }
    if backups.Length == 0 {
      assert MayUse(backups[..], None);
      return Ok(NO_WINDOW);
    }
    var latestBackup := LatestSuccessfulBackup(backups);
    if latestBackup.None? || latestBackup.value.createdAt.None? {
      return Ok(NO_WINDOW);
    }
    var b := latestBackup.value;
    if b.completedAt.None? {
      return Err(NilDereference);
    }
    var backupTime := b.completedAt.value;
    var latest: Option<int> := None;
    if b.latestRestorableTime.Some? && cluster.engine.kind != PSMDB {
      if b.latestRestorableTime.value > backupTime {
        latest := b.latestRestorableTime;
      }
    } else {
      var interval := GetDefaultUploadInterval(cluster.engine, cluster.uploadIntervalSec);
      latest := LatestRestorableDate(now, backupTime, interval);
    }
    r := Ok(Window(latest, if latest.Some? then Some(backupTime) else None, Some(b.name), Some(b.gaps)));
  }

  /** Every window in an answer is well formed: it has both ends or neither, in order, it
      starts at the completion of the backup in use, and it names that backup. Its end is
      the one that backup records, or is computed from the upload interval. */
  lemma WindowWellFormed(cluster: Cluster, backups: seq<Backup>, now: int, w: Window)
    requires Answers(cluster, backups, now, Ok(w))
    ensures w.latest.Some? <==> w.earliest.Some?
    ensures w.latest.Some? ==>
      && Recoverable(cluster)
      && w.earliest.value <= w.latest.value
      && exists b ::
        && MayUse(backups, Some(b))
        && b.completedAt == w.earliest
        && w.backupName == Some(b.name)
        && w.gaps == Some(b.gaps)
        && (b.latestRestorableTime == w.latest || HeuristicEnd(cluster, now, w.latest.value))
  {
    if Recoverable(cluster) {
      var used :| MayUse(backups, used) && Ok(w) == WindowFrom(cluster, used, now);
      if w.latest.Some? {
        var b := used.value;
        assert MayUse(backups, Some(b));
        if b.latestRestorableTime != w.latest {
          var interval := GetDefaultUploadInterval(cluster.engine, cluster.uploadIntervalSec);
          if -MAX_INTERVAL <= interval <= MAX_INTERVAL {
            DateWithinASecond(now, b.completedAt.value, interval);
          }
        }
      }
    }
  }

  /** An end computed from the upload interval. */
  predicate HeuristicEnd(cluster: Cluster, now: int, end: int) {
    var interval := GetDefaultUploadInterval(cluster.engine, cluster.uploadIntervalSec);
    && interval != 0
    && (-MAX_INTERVAL <= interval <= MAX_INTERVAL ==>
          now - interval * SECOND - SECOND < end <= now - interval * SECOND)
  }

  /** No two different succeeded backups have one creation time. */
  ghost predicate SucceededDiffer(backups: seq<Backup>) {
    forall x, y | x in backups && y in backups && x.succeeded && y.succeeded ::
      x.createdAt.Some? && x.createdAt == y.createdAt ==> x == y
  }

  /** When the list can be put in order and the creation times of succeeded backups differ,
      there is one answer: nothing depends on the sort. */
  lemma AnswerUnique(cluster: Cluster, backups: seq<Backup>, now: int,
                     r: Result<Window, Failure>, r': Result<Window, Failure>)
    requires Sortable(backups) && SucceededDiffer(backups)
    requires Answers(cluster, backups, now, r) && Answers(cluster, backups, now, r')
    ensures r == r'
  {
    if Recoverable(cluster) {
      var u :| MayUse(backups, u) && r == WindowFrom(cluster, u, now);
      var u' :| MayUse(backups, u') && r' == WindowFrom(cluster, u', now);
      if u.Some? && u'.Some? {
        assert NewerFirst(u.value, u'.value) && NewerFirst(u'.value, u.value);
      }
    }
  }

  // ---------- the answer, case by case ----------

  /** The engine's upload interval counts towards the end of the window: any version of
      PSMDB and Postgresql, and PXC before 1.14. */
  predicate Heuristic(engine: Engine) {
    engine.version.Some?
    && (engine.kind == PSMDB || engine.kind == Postgresql
        || (engine.kind == PXC
            && (engine.version.value.0 == 0 || (engine.version.value.0 == 1 && engine.version.value.1 < 14))))
  }

  /** At a whole second, where the backup's record is missing or not relied on, the window
      ends the upload interval ago: the one configured, or 600 seconds for PSMDB and 60 for
      the others. It has no end if the interval is zero, if the backup was completed since,
      or if the interval does not count. */
  lemma EndByEngine(cluster: Cluster, b: Backup, backupTime: int, now: int)
    requires now % SECOND == 0 && (b.latestRestorableTime.None? || cluster.engine.kind == PSMDB)
    requires cluster.uploadIntervalSec.Some? ==> -MAX_INTERVAL <= cluster.uploadIntervalSec.value <= MAX_INTERVAL
    ensures
      var i := if cluster.uploadIntervalSec.Some? then cluster.uploadIntervalSec.value
               else if cluster.engine.kind == PSMDB then 600 else 60;
      LatestDate(cluster, b, backupTime, now) ==
        if Heuristic(cluster.engine) && i != 0 && backupTime <= now - i * SECOND then Some(now - i * SECOND) else None
  {
    var interval := GetDefaultUploadInterval(cluster.engine, cluster.uploadIntervalSec);
    BackByExact(interval);
  }

  /** With one backup the answer is fixed: no window without recovery, which Postgresql always
      has, or for a backup that failed or has no creation time; a nil dereference for one
      that has no completion time; and else a window that names the backup, whether or not
      it has ends. */
  lemma OneBackupAnswer(cluster: Cluster, b: Backup, now: int, r: Result<Window, Failure>)
    requires Answers(cluster, [b], now, r)
    ensures
      var recovers := cluster.pitrEnabled || cluster.engine.kind == Postgresql;
      var usable := recovers && b.succeeded && b.createdAt.Some?;
      && (!usable ==> r == Ok(NO_WINDOW))
      && (usable && b.completedAt.None? ==> r == Err(NilDereference))
      && (usable && b.completedAt.Some? ==>
            var latest := LatestDate(cluster, b, b.completedAt.value, now);
            r == Ok(Window(latest, if latest.Some? then b.completedAt else None, Some(b.name), Some(b.gaps))))
  {
    assert b in [b];
    if cluster.pitrEnabled || cluster.engine.kind == Postgresql {
      var used :| MayUse([b], used) && r == WindowFrom(cluster, used, now);
      assert used.Some? ==> used.value in [b];
    }
  }

  /** Where the backup's record is relied on, it is the end of the window if it lies after the
      completion, and there is none otherwise. */
  lemma EndByRecord(cluster: Cluster, b: Backup, backupTime: int, now: int)
    requires b.latestRestorableTime.Some? && cluster.engine.kind != PSMDB
    ensures LatestDate(cluster, b, backupTime, now)
         == if b.latestRestorableTime.value > backupTime then b.latestRestorableTime else None
  {
  }
}
