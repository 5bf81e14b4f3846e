/** Choosing the version to upgrade to (pkg/cli/upgrade/upgrade.go) and the version to
    install (pkg/cli/install/install.go) from the published metadata. */
module Upgrade {
  import opened Wrappers

  /** A release version. */
  datatype Version = Version(major: nat, minor: nat, patch: nat)

  /** One metadata entry; the version is None when its text does not parse. */
  datatype Entry = Entry(name: string, version: Option<Version>)

  datatype UpgradeError = NoUpdate | Downgrade | TooFar | NotParsed | NotPublished

  predicate PairLess(a: Version, b: Version) {
    a.major < b.major || (a.major == b.major && a.minor < b.minor)
  }

  predicate SamePair(a: Version, b: Version) {
    a.major == b.major && a.minor == b.minor
  }

  predicate Less(a: Version, b: Version) {
    PairLess(a, b) || (SamePair(a, b) && a.patch < b.patch)
  }

  predicate Published(entries: seq<Entry>, v: Version) {
    exists e | e in entries :: e.version == Some(v)
  }

  // ---------- what the automatic choice means ----------

  /** Some published version lies in a later (major, minor) pair. */
  ghost predicate LaterPairExists(entries: seq<Entry>, current: Version) {
    exists w :: Published(entries, w) && PairLess(current, w)
  }

  /** The target is published, has the highest patch of its pair, and its pair is the least
      later one or, when there is none, the current one. */
  ghost predicate IsTarget(entries: seq<Entry>, current: Version, v: Version) {
    && Published(entries, v)
    && Less(current, v)
    && (forall w | Published(entries, w) && SamePair(w, v) :: w.patch <= v.patch)
    && (if LaterPairExists(entries, current)
        then PairLess(current, v)
          && forall w | Published(entries, w) && PairLess(current, w) :: !PairLess(w, v)
        else SamePair(current, v))
  }

  lemma TargetUnique(entries: seq<Entry>, current: Version, v: Version, w: Version)
    requires IsTarget(entries, current, v) && IsTarget(entries, current, w)
    ensures v == w
  {
  }

  ghost function Target(entries: seq<Entry>, current: Version): (t: Option<Version>)
    ensures t.Some? ==> IsTarget(entries, current, t.value)
    ensures t.None? ==> forall v :: !IsTarget(entries, current, v)
  {
    if exists v :: IsTarget(entries, current, v)
    then var v :| IsTarget(entries, current, v); Some(v)
    else None
  }

  // ---------- the loops ----------

  method FindNextMinorVersion(entries: seq<Entry>, current: Version)
      returns (upgradeTo: Option<Version>, meta: Option<Entry>)
    ensures upgradeTo.None? <==> meta.None?
    ensures upgradeTo.None? <==> !LaterPairExists(entries, current)
    ensures upgradeTo.Some? ==>
      && meta.value in entries && meta.value.version == upgradeTo
      && PairLess(current, upgradeTo.value)
      && forall w | Published(entries, w) && PairLess(current, w) :: !Less(w, upgradeTo.value)
  {
    upgradeTo, meta := None, None;
    for i := 0 to |entries|
      invariant upgradeTo.None? <==> meta.None?
      invariant upgradeTo.None? ==> forall w | Published(entries[..i], w) :: !PairLess(current, w)
      invariant upgradeTo.Some? ==>
        && meta.value in entries && meta.value.version == upgradeTo
        && PairLess(current, upgradeTo.value)
        && forall w | Published(entries[..i], w) && PairLess(current, w) :: !Less(w, upgradeTo.value)
    {
      var v := entries[i];
      assert entries[..i + 1] == entries[..i] + [v];
      assert forall w :: Published(entries[..i + 1], w) <==> Published(entries[..i], w) || v.version == Some(w);
      if v.version == None {
        continue;
      }
      var ver := v.version.value;
      if !Less(current, ver) {
        continue;
      }
      if SamePair(ver, current) {
        continue;
      }
      if upgradeTo == None {
        upgradeTo, meta := Some(ver), Some(v);
        continue;
      }
      if Less(ver, upgradeTo.value) {
        upgradeTo, meta := Some(ver), Some(v);
        continue;
      }
    }
    assert entries[..|entries|] == entries;
    if upgradeTo.Some? {
      assert Published(entries, upgradeTo.value);
    }
  }

  /** The target and its own metadata entry, or no update. */
  method VersionToUpgradeTo(entries: seq<Entry>, current: Version)
      returns (result: Result<(Version, Entry), UpgradeError>)
    ensures result.Ok? ==>
      && Target(entries, current) == Some(result.value.0)
      && result.value.1 in entries && result.value.1.version == Some(result.value.0)
    ensures result.Err? ==> result.error == NoUpdate && Target(entries, current) == None
  {
    var next, meta := FindNextMinorVersion(entries, current);
    var start := if next == None then current else next.value;
    var upgradeTo := start;
    for i := 0 to |entries|
      invariant meta.None? ==> next.None? && upgradeTo == current
      invariant meta.Some? ==>
        meta.value in entries && meta.value.version == Some(upgradeTo) && Less(current, upgradeTo)
      invariant SamePair(upgradeTo, start) && start.patch <= upgradeTo.patch
      invariant forall w | Published(entries[..i], w) && SamePair(w, start) && Less(current, w) ::
        w.patch <= upgradeTo.patch
    {
      var v := entries[i];
      assert entries[..i + 1] == entries[..i] + [v];
      assert forall w :: Published(entries[..i + 1], w) <==> Published(entries[..i], w) || v.version == Some(w);
      if v.version == None {
        continue;
      }
      var ver := v.version.value;
      if !Less(current, ver) {
        continue;
      }
      if SamePair(ver, upgradeTo) {
        if ver.patch <= upgradeTo.patch {
          continue;
        }
        upgradeTo, meta := ver, Some(v);
        continue;
      }
    }
    assert entries[..|entries|] == entries;
    if meta == None {
      NoTarget(entries, current);
      return Err(NoUpdate);
    }
    assert IsTarget(entries, current, upgradeTo);
    TargetUnique(entries, current, upgradeTo, Target(entries, current).value);
    return Ok((upgradeTo, meta.value));
  }

  lemma NoTarget(entries: seq<Entry>, current: Version)
    requires !LaterPairExists(entries, current)
    requires forall w | Published(entries, w) && SamePair(w, current) && Less(current, w) ::
      w.patch <= current.patch
    ensures Target(entries, current) == None
  {
  }

  /** The version that the configuration asks for, if it is set. */
  datatype Wanted = Any | Unparsed | Exactly(version: Version)

  datatype InstallError = WantedNotParsed | NoneFound

  /** The version an installation picks: the one that is configured, or the greatest
      published one. */
  method LatestVersion(entries: seq<Entry>, wanted: Wanted) returns (result: Result<(Version, Entry), InstallError>)
    ensures wanted.Unparsed? ==> result == Err(WantedNotParsed)
    ensures result.Ok? ==> result.value.1 in entries && result.value.1.version == Some(result.value.0)
    ensures wanted.Exactly? ==>
      if Published(entries, wanted.version) then result.Ok? && result.value.0 == wanted.version
      else result == Err(NoneFound)
    ensures wanted.Any? && result.Ok? ==> forall w | Published(entries, w) :: !Less(result.value.0, w)
    ensures wanted.Any? && result.Err? ==> result == Err(NoneFound) && forall v :: !Published(entries, v)
  {
    if wanted.Unparsed? {
      return Err(WantedNotParsed);
    }
    var latest: Option<(Version, Entry)> := None;
    for i := 0 to |entries|
      invariant latest.Some? ==> latest.value.1 in entries && latest.value.1.version == Some(latest.value.0)
      invariant wanted.Exactly? ==> latest == None && !Published(entries[..i], wanted.version)
      invariant wanted.Any? && latest.None? ==> forall v :: !Published(entries[..i], v)
      invariant wanted.Any? && latest.Some? ==> forall w | Published(entries[..i], w) :: !Less(latest.value.0, w)
    {
      var v := entries[i];
      assert entries[..i + 1] == entries[..i] + [v];
      assert forall w :: Published(entries[..i + 1], w) <==> Published(entries[..i], w) || v.version == Some(w);
      if v.version == None {
        continue;
      }
      var ver := v.version.value;
      if wanted.Exactly? {
        if ver == wanted.version {
          return Ok((ver, v));
        }
      } else if latest == None || Less(latest.value.0, ver) {
        latest := Some((ver, v));
        continue;
      }
    }
    assert entries[..|entries|] == entries;
    if latest == None {
      return Err(NoneFound);
    }
    return Ok(latest.value);
  }

  // ---------- the automatic target exists and does not depend on the order ----------

  function VersionsOf(entries: seq<Entry>): (vs: set<Version>)
    ensures forall v :: v in vs <==> Published(entries, v)
  {
    set e | e in entries && e.version.Some? :: e.version.value
  }

  lemma {:induction false} LeastOf(vs: set<Version>) returns (v: Version)
    requires vs != {}
    ensures v in vs && forall w | w in vs :: !Less(w, v)
    decreases |vs|
  {
    v :| v in vs;
    if vs != {v} {
      assert vs == (vs - {v}) + {v};
      var u := LeastOf(vs - {v});
      v := if Less(u, v) then u else v;
    }
  }

  lemma {:induction false} HighestPatchOf(vs: set<Version>) returns (v: Version)
    requires vs != {}
    ensures v in vs && forall w | w in vs :: w.patch <= v.patch
    decreases |vs|
  {
    v :| v in vs;
    if vs != {v} {
      assert vs == (vs - {v}) + {v};
      var u := HighestPatchOf(vs - {v});
      v := if u.patch > v.patch then u else v;
    }
  }

  /** No update is reported exactly when no published version exceeds the current one. */
  lemma TargetExistsExactly(entries: seq<Entry>, current: Version)
    ensures Target(entries, current).Some? <==> exists w :: Published(entries, w) && Less(current, w)
  {
    if w :| Published(entries, w) && Less(current, w) {
      var later := set x | x in VersionsOf(entries) && PairLess(current, x);
      var pair := w;
      if LaterPairExists(entries, current) {
        var x :| Published(entries, x) && PairLess(current, x);
        assert x in later;
        pair := LeastOf(later);
      }
      var same := set x | x in VersionsOf(entries) && SamePair(x, pair);
      assert pair in same;
      var v := HighestPatchOf(same);
      assert v in VersionsOf(entries);
      forall x | Published(entries, x) && SamePair(x, v)
        ensures x.patch <= v.patch
      {
        assert x in same;
      }
      forall x | LaterPairExists(entries, current) && Published(entries, x) && PairLess(current, x)
        ensures !PairLess(x, v)
      {
        assert x in later;
      }
      assert IsTarget(entries, current, v);
    }
  }

  lemma TargetCarries(a: seq<Entry>, b: seq<Entry>, current: Version, v: Version)
    requires VersionsOf(a) == VersionsOf(b)
    requires IsTarget(a, current, v)
    ensures IsTarget(b, current, v)
  {
    forall w
      ensures Published(a, w) <==> Published(b, w)
    {
      assert w in VersionsOf(a) <==> w in VersionsOf(b);
    }
    assert LaterPairExists(a, current) <==> LaterPairExists(b, current);
  }

  /** Lists that publish the same versions, in particular permutations of one list, have
      the same automatic target. */
  lemma TargetIgnoresOrder(a: seq<Entry>, b: seq<Entry>, current: Version)
    requires VersionsOf(a) == VersionsOf(b)
    ensures Target(a, current) == Target(b, current)
  {
    if Target(a, current).Some? {
      TargetCarries(a, b, current, Target(a, current).value);
      TargetUnique(b, current, Target(a, current).value, Target(b, current).value);
    } else if Target(b, current).Some? {
      TargetCarries(b, a, current, Target(b, current).value);
    }
  }

  lemma PermutationSameVersions(a: seq<Entry>, b: seq<Entry>)
    requires multiset(a) == multiset(b)
    ensures VersionsOf(a) == VersionsOf(b)
  {
    assert forall e :: e in a <==> e in multiset(a);
    assert forall e :: e in b <==> e in multiset(b);
  }

  // ---------- repeated upgrades ----------

  function Above(entries: seq<Entry>, current: Version): (vs: set<Version>)
  {
    set v | v in VersionsOf(entries) && Less(current, v)
  }

  /** The versions visited by upgrading until no update is available. */
  ghost function Chain(entries: seq<Entry>, current: Version): seq<Version>
    decreases |Above(entries, current)|
  {
    var t := Target(entries, current);
    if t.None? then []
    else
      AboveShrinks(entries, current, t.value);
      [t.value] + Chain(entries, t.value)
  }

  lemma AboveShrinks(entries: seq<Entry>, current: Version, v: Version)
    requires Published(entries, v) && Less(current, v)
    ensures |Above(entries, v)| < |Above(entries, current)|
  {
    var smaller, larger := Above(entries, v), Above(entries, current);
    assert v in larger && v !in smaller;
    assert smaller <= larger - {v};
    SubsetSize(smaller, larger - {v});
  }

  lemma {:induction false} SubsetSize<T>(a: set<T>, b: set<T>)
    requires a <= b
    ensures |a| <= |b|
    decreases |b|
  {
    if x :| x in a {
      SubsetSize(a - {x}, b - {x});
    }
  }

  type Pair = (nat, nat)

  function PairOf(v: Version): Pair { (v.major, v.minor) }

  /** The published (major, minor) pairs later than the current one. */
  function LaterPairs(entries: seq<Entry>, current: Version): (ps: set<Pair>)
    ensures ps == {} <==> !LaterPairExists(entries, current)
  {
    var later := set v | v in VersionsOf(entries) && PairLess(current, v);
    var ps := set v | v in later :: PairOf(v);
    assert forall v | Published(entries, v) && PairLess(current, v) :: v in later && PairOf(v) in ps;
    ps
  }

  lemma InLaterPairs(entries: seq<Entry>, current: Version, p: Pair)
    ensures p in LaterPairs(entries, current) <==>
      exists v :: Published(entries, v) && PairLess(current, v) && PairOf(v) == p
  {
    if v :| Published(entries, v) && PairLess(current, v) && PairOf(v) == p {
      assert v in VersionsOf(entries);
    }
  }

  /** One automatic upgrade to a later pair leaves exactly the pairs above it. */
  lemma LaterPairsStep(entries: seq<Entry>, current: Version, v: Version)
    requires IsTarget(entries, current, v) && PairLess(current, v)
    ensures LaterPairs(entries, v) == LaterPairs(entries, current) - {PairOf(v)}
    ensures PairOf(v) in LaterPairs(entries, current)
  {
    forall p
      ensures p in LaterPairs(entries, v) <==> p in LaterPairs(entries, current) - {PairOf(v)}
    {
      InLaterPairs(entries, v, p);
      InLaterPairs(entries, current, p);
    }
    InLaterPairs(entries, current, PairOf(v));
  }

  ghost predicate AtTopPatch(entries: seq<Entry>, v: Version) {
    forall w | Published(entries, w) && SamePair(w, v) :: w.patch <= v.patch
  }

  ghost predicate Ascending(current: Version, chain: seq<Version>) {
    && (chain != [] ==> PairLess(current, chain[0]))
    && forall i | 0 <= i < |chain| - 1 :: PairLess(chain[i], chain[i + 1])
  }

  function PairsOf(chain: seq<Version>): set<Pair> {
    set v | v in chain :: PairOf(v)
  }

  /** The chain visits every later pair exactly once, in order, at its highest patch. */
  ghost predicate VisitsLaterPairs(entries: seq<Entry>, current: Version, chain: seq<Version>) {
    && |chain| == |LaterPairs(entries, current)|
    && PairsOf(chain) == LaterPairs(entries, current)
    && Ascending(current, chain)
    && forall v | v in chain :: AtTopPatch(entries, v)
  }

  lemma VisitFirst(entries: seq<Entry>, current: Version, v: Version, rest: seq<Version>)
    requires IsTarget(entries, current, v) && PairLess(current, v)
    requires VisitsLaterPairs(entries, v, rest)
    ensures VisitsLaterPairs(entries, current, [v] + rest)
  {
    LaterPairsStep(entries, current, v);
    PairsOfCons(v, rest);
    AscendingCons(current, v, rest);
  }

  lemma PairsOfCons(v: Version, rest: seq<Version>)
    ensures PairsOf([v] + rest) == {PairOf(v)} + PairsOf(rest)
  {
    forall p | p in PairsOf(rest)
      ensures p in PairsOf([v] + rest)
    {
      var w :| w in rest && PairOf(w) == p;
      assert w in [v] + rest;
    }
    assert v in [v] + rest;
  }

  lemma AscendingCons(current: Version, v: Version, rest: seq<Version>)
    requires PairLess(current, v) && Ascending(v, rest)
    ensures Ascending(current, [v] + rest)
  {
    var chain := [v] + rest;
    forall i | 0 <= i < |chain| - 1
      ensures PairLess(chain[i], chain[i + 1])
    {
      assert i > 0 ==> chain[i] == rest[i - 1] && PairLess(rest[i - 1], rest[i - 1 + 1]);
    }
  }

  lemma {:induction false} ChainFromTop(entries: seq<Entry>, current: Version)
    requires AtTopPatch(entries, current) || LaterPairExists(entries, current)
    ensures VisitsLaterPairs(entries, current, Chain(entries, current))
    decreases |Above(entries, current)|
  {
    TargetExistsExactly(entries, current);
    if LaterPairExists(entries, current) {
      var v := Target(entries, current).value;
      AboveShrinks(entries, current, v);
      ChainFromTop(entries, v);
      VisitFirst(entries, current, v, Chain(entries, v));
    } else {
      assert Target(entries, current).None?;
      assert PairsOf([]) == {};
    }
  }

  /** Where the chain ends. */
  ghost function Settled(entries: seq<Entry>, current: Version): Version {
    var chain := Chain(entries, current);
    if chain == [] then current else chain[|chain| - 1]
  }

  lemma {:induction false} SettledHasNoTarget(entries: seq<Entry>, current: Version)
    ensures Target(entries, Settled(entries, current)) == None
    ensures Settled(entries, current) == current
         || (Published(entries, Settled(entries, current)) && Less(current, Settled(entries, current)))
    decreases |Above(entries, current)|
  {
    var t := Target(entries, current);
    if t.Some? {
      AboveShrinks(entries, current, t.value);
      SettledHasNoTarget(entries, t.value);
    }
  }

  /** Repeated automatic upgrades converge. With k > 0 later pairs there are exactly k
      upgrades, one to each later pair, in order, at its highest patch; with none there is
      at most one. Then no update is reported, at the greatest published version unless
      the start exceeds every published version. */
  lemma UpgradesConverge(entries: seq<Entry>, current: Version, latest: Version)
    requires Published(entries, latest) && forall w | Published(entries, w) :: !Less(latest, w)
    ensures var chain := Chain(entries, current);
            var later := LaterPairs(entries, current);
      && (later != {} ==> VisitsLaterPairs(entries, current, chain))
      && (later == {} ==> |chain| <= 1)
      && Target(entries, Settled(entries, current)) == None
      && Settled(entries, current) == if Less(current, latest) then latest else current
  {
    if LaterPairExists(entries, current) {
      ChainFromTop(entries, current);
    } else if Target(entries, current).Some? {
      var v := Target(entries, current).value;
      assert !LaterPairExists(entries, v);
      ChainFromTop(entries, v);
      AboveShrinks(entries, current, v);
    }
    SettledHasNoTarget(entries, current);
    TargetExistsExactly(entries, Settled(entries, current));
  }

  // ---------- a version named by the user ----------

  function Validate(current: Version, target: Version): Result<(), UpgradeError> {
    if Less(target, current) then Err(Downgrade)
    else if target == current then Err(NoUpdate)
    else if target.minor - current.minor > 1 then Err(TooFar)
    else Ok(())
  }

  method HandleSpecifiedVersion(entries: seq<Entry>, current: Version, requested: Option<Version>)
      returns (result: Result<(Version, Entry), UpgradeError>)
    ensures result.Ok? <==>
      && requested.Some? && Less(current, requested.value)
      && requested.value.minor <= current.minor + 1 && Published(entries, requested.value)
    ensures result.Ok? ==>
      && Some(result.value.0) == requested == result.value.1.version
      && result.value.1 in entries
    ensures result == Err(NotParsed) <==> requested.None?
    ensures result == Err(Downgrade) <==> requested.Some? && Less(requested.value, current)
    ensures result == Err(NoUpdate) <==> requested == Some(current)
    ensures result == Err(TooFar) <==>
      requested.Some? && Less(current, requested.value) && requested.value.minor > current.minor + 1
    ensures result == Err(NotPublished) <==>
      && requested.Some? && Less(current, requested.value)
      && requested.value.minor <= current.minor + 1 && !Published(entries, requested.value)
  {
    if requested == None {
      return Err(NotParsed);
    }
    var upgradeTo := requested.value;
    var valid := Validate(current, upgradeTo);
    if valid.Err? {
      return Err(valid.error);
    }
    for i := 0 to |entries|
      invariant forall e | e in entries[..i] :: e.version != requested
    {
      if entries[i].version == Some(upgradeTo) {
        return Ok((upgradeTo, entries[i]));
      }
      assert entries[..i + 1] == entries[..i] + [entries[i]];
    }
    assert entries[..|entries|] == entries;
    return Err(NotPublished);
  }

  /** In every major, a published minor from 2 on has its predecessor published. */
  ghost predicate NoMinorGaps(entries: seq<Entry>) {
    forall v | Published(entries, v) && v.minor >= 2 ::
      exists w :: Published(entries, w) && w.major == v.major && w.minor == v.minor - 1
  }

  ghost predicate AutomaticTargetsAccepted(entries: seq<Entry>) {
    forall current, v | Target(entries, current) == Some(v) :: Validate(current, v) == Ok(())
  }

  /** The two ways to upgrade agree, from every current version, exactly when no
      published minor has a gap below it. */
  lemma UpgradePathsAgree(entries: seq<Entry>)
    ensures AutomaticTargetsAccepted(entries) <==> NoMinorGaps(entries)
  {
    if NoMinorGaps(entries) {
      forall current, v | Target(entries, current) == Some(v)
        ensures Validate(current, v) == Ok(())
      {
        AcceptedWithoutGaps(entries, current, v);
      }
    } else {
      var v :| Published(entries, v) && v.minor >= 2
        && !exists w :: Published(entries, w) && w.major == v.major && w.minor == v.minor - 1;
      RejectedAcrossGap(entries, v);
    }
  }

  lemma AcceptedWithoutGaps(entries: seq<Entry>, current: Version, v: Version)
    requires NoMinorGaps(entries) && IsTarget(entries, current, v)
    ensures Validate(current, v) == Ok(())
  {
    if v.minor - current.minor > 1 {
      var w :| Published(entries, w) && w.major == v.major && w.minor == v.minor - 1;
      assert PairLess(current, w) && PairLess(w, v);
    }
  }

  lemma RejectedAcrossGap(entries: seq<Entry>, v: Version)
    requires Published(entries, v) && v.minor >= 2
    requires !exists w :: Published(entries, w) && w.major == v.major && w.minor == v.minor - 1
    ensures !AutomaticTargetsAccepted(entries)
  {
    var current := Version(v.major, v.minor - 2, 0);
    assert LaterPairExists(entries, current);
    TargetExistsExactly(entries, current);
    var t := Target(entries, current).value;
    assert SamePair(t, v);
    assert Validate(current, t) == Err(TooFar);
  }

  /** Only 1.2.0 is published: from 1.0.0 it is the automatic target, and refused as a
      requested version. */
  lemma GapExample()
    ensures var current, far := Version(1, 0, 0), Version(1, 2, 0);
      && Target([Entry("1.2.0", Some(far))], current) == Some(far)
      && Validate(current, far) == Err(TooFar)
  {
    var entries, far := [Entry("1.2.0", Some(Version(1, 2, 0)))], Version(1, 2, 0);
    assert entries[0] in entries;
    assert Published(entries, far) && forall v | Published(entries, v) :: v == far;
    assert LaterPairExists(entries, Version(1, 0, 0));
    assert IsTarget(entries, Version(1, 0, 0), far);
  }
}
