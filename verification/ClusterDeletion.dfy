/** Deleting a database cluster (internal/server/handlers/k8s/database_cluster.go): its
    backups get their finalizers before the deletion is issued, while other writers keep
    updating the same objects. */
module ClusterDeletion {
  import opened Wrappers

  const FOREGROUND := "foregroundDeletion"
  // The text of this finalizer comes from the operator's module; any other text than the
  // one above serves.
  const STORAGE_PROTECTION := "storage-protection"
  const MAX_RETRIES := 10

  /** A backup object with the version the API server gave its current state. */
  datatype Backup = Backup(cluster: string, deleting: bool, finalizers: seq<string>, version: nat)

  type Backups = map<string, Backup>

  predicate Protective(finalizer: string) {
    finalizer == FOREGROUND || finalizer == STORAGE_PROTECTION
  }

  function AddFinalizer(b: Backup, finalizer: string): Backup {
    if finalizer in b.finalizers then b else b.(finalizers := b.finalizers + [finalizer])
  }

  function AddFinalizers(b: Backup, finalizers: seq<string>): Backup {
    if finalizers == [] then b
    else AddFinalizer(AddFinalizers(b, finalizers[..|finalizers| - 1]), finalizers[|finalizers| - 1])
  }

  predicate Has(backups: Backups, name: string, finalizer: string) {
    name in backups && finalizer in backups[name].finalizers
  }

  /** Backups under a protective finalizer keep it, and so stay. */
  predicate KeepsProtection(before: Backups, after: Backups) {
    forall n | n in before ::
      && (Has(before, n, FOREGROUND) ==> Has(after, n, FOREGROUND))
      && (Has(before, n, STORAGE_PROTECTION) ==> Has(after, n, STORAGE_PROTECTION))
  }

  /** What other writers may do: anything that gives the objects they touch new versions
      and does not remove a protective finalizer. */
  predicate OthersMay(before: Backups, after: Backups, counter: nat, counter': nat) {
    && counter <= counter'
    && KeepsProtection(before, after)
    && forall n | n in after ::
         (n in before && after[n] == before[n]) || counter < after[n].version <= counter'
  }

  /** A write of this handler: the name of the object, and the object before and after. */
  datatype OwnWrite = OwnWrite(name: string, before: Backup, after: Backup)

  /** It adds protective finalizers behind those already there and changes nothing else. */
  ghost predicate OnlyProtects(w: OwnWrite) {
    && w.before.finalizers <= w.after.finalizers
    && (forall f | f in w.after.finalizers[|w.before.finalizers|..] :: Protective(f))
    && w.after.cluster == w.before.cluster && w.after.deleting == w.before.deleting
  }

  /** The write of a named object adds no finalizers but the given ones. */
  ghost predicate AddsAtMost(w: OwnWrite, name: string, finalizers: seq<string>) {
    w.name == name && forall f | f in w.after.finalizers :: f in w.before.finalizers || f in finalizers
  }

  /** The write is on an object that was listed for the cluster and not being deleted; with
      clean-up requested it does not bring in the storage-protection finalizer. */
  ghost predicate WithinRequest(w: OwnWrite, listed: seq<Item>, cluster: string, cleanupStorage: bool) {
    && (exists i | i in listed :: i.name == w.name && i.backup.cluster == cluster && !i.backup.deleting)
    && (cleanupStorage && STORAGE_PROTECTION in w.after.finalizers ==> STORAGE_PROTECTION in w.before.finalizers)
  }

  /** The writes from a place on are of one object and add at most the given finalizers. */
  ghost predicate AllAddAtMost(writes: seq<OwnWrite>, from: nat, name: string, finalizers: seq<string>) {
    forall k | from <= k < |writes| :: AddsAtMost(writes[k], name, finalizers)
  }

  ghost predicate AllWithin(
    writes: seq<OwnWrite>, from: nat, listed: seq<Item>, cluster: string, cleanupStorage: bool)
  {
    forall k | from <= k < |writes| :: WithinRequest(writes[k], listed, cluster, cleanupStorage)
  }

  lemma MoreWithin(writes: seq<OwnWrite>, from: nat, mid: nat, listed: seq<Item>, i: Item, cluster: string,
                   cleanupStorage: bool, finalizers: seq<string>)
    requires mid <= |writes| && AllWithin(writes[..mid], from, listed, cluster, cleanupStorage)
    requires AllAddAtMost(writes, mid, i.name, finalizers)
    requires i in listed && i.backup.cluster == cluster && !i.backup.deleting
    requires cleanupStorage ==> STORAGE_PROTECTION !in finalizers
    ensures AllWithin(writes, from, listed, cluster, cleanupStorage)
  {
    forall k | from <= k < |writes|
      ensures WithinRequest(writes[k], listed, cluster, cleanupStorage)
    {
      if k < mid {
        assert writes[..mid][k] == writes[k];
      } else {
        assert AddsAtMost(writes[k], i.name, finalizers);
      }
    }
  }

  lemma {:induction false} AddingOnlyProtects(name: string, b: Backup, finalizers: seq<string>)
    requires forall f | f in finalizers :: Protective(f)
    ensures OnlyProtects(OwnWrite(name, b, AddFinalizers(b, finalizers)))
    ensures AddsAtMost(OwnWrite(name, b, AddFinalizers(b, finalizers)), name, finalizers)
    ensures AddFinalizers(b, finalizers).version == b.version
    ensures forall f | f in finalizers :: f in AddFinalizers(b, finalizers).finalizers
  {
    if finalizers != [] {
      var shorter, last := finalizers[..|finalizers| - 1], finalizers[|finalizers| - 1];
      AddingOnlyProtects(name, b, shorter);
      var half := AddFinalizers(b, shorter);
      var whole := AddFinalizers(b, finalizers);
      var k := |b.finalizers|;
      if last !in half.finalizers {
        assert whole.finalizers[k..] == half.finalizers[k..] + [last];
      }
    }
  }

  datatype Item = Item(name: string, backup: Backup)

  class ApiServer {
    var backups: Backups
    var counter: nat
    ghost var ownWrites: seq<OwnWrite>
    ghost var failures: nat    // calls that failed, conflicted, or whose reply was lost

    ghost predicate Valid()
      reads this
    {
      && (forall n | n in backups :: backups[n].version <= counter)
      && (forall w | w in ownWrites :: OnlyProtects(w))
    }

    /** Any activity of other writers between two calls. */
    method OtherWriters()
      requires Valid()
      modifies this`backups, this`counter
      ensures Valid() && OthersMay(old(backups), backups, old(counter), counter)
    {
      var next: Backups, nextCounter: int := *, *;
      if nextCounter >= 0 && OthersMay(backups, next, counter, nextCounter) {
        backups, counter := next, nextCounter;
      }
    }

    /** All backups of the namespace, in an order of the server's choice. */
    method ListBackups() returns (items: Option<seq<Item>>)
      requires Valid()
      modifies this`failures
      ensures failures == old(failures) + if items.None? then 1 else 0
      ensures items.Some? ==> forall n | n in backups :: Item(n, backups[n]) in items.value
      ensures items.Some? ==> forall i | i in items.value :: i.name in backups && i.backup == backups[i.name]
    {
      var failed: bool := *;
      if failed {
        failures := failures + 1;
        return None;
      }
      var pending, found := backups.Keys, [];
      while pending != {}
        invariant pending <= backups.Keys
        invariant forall n | n in backups && n !in pending :: Item(n, backups[n]) in found
        invariant forall i | i in found :: i.name in backups && i.backup == backups[i.name]
        decreases |pending|
      {
        var n :| n in pending;
        pending := pending - {n};
        found := found + [Item(n, backups[n])];
      }
      return Some(found);
    }

    /** A read may be served from a cache: an older state, but then with another version. */
    method GetBackup(name: string) returns (backup: Option<Backup>)
      requires Valid()
      modifies this`failures
      ensures failures == old(failures) + if backup.None? then 1 else 0
      ensures backup.Some? ==> backup.value.version <= counter
      ensures backup.Some? && name in backups && backups[name].version == backup.value.version ==>
        backup.value == backups[name]
    {
      var cached: bool, stale: Backup := *, *;
      if cached && stale.version <= counter && !(name in backups && backups[name].version == stale.version) {
        return Some(stale);
      }
      if name !in backups {
        failures := failures + 1;
        return None;
      }
      return Some(backups[name]);
    }

    /** A write lands exactly when it was computed from the current version; the reply to
        a write that landed may be lost. */
    method UpdateBackup(name: string, backup: Backup) returns (ok: bool)
      requires Valid()
      requires name in backups && backups[name].version == backup.version ==>
        OnlyProtects(OwnWrite(name, backups[name], backup))
      modifies this
      ensures Valid() && KeepsProtection(old(backups), backups)
      ensures failures == old(failures) + if ok then 0 else 1
      ensures (ownWrites == old(ownWrites) && backups == old(backups))
           || (name in old(backups) && old(backups)[name].version == backup.version
               && ownWrites == old(ownWrites) + [OwnWrite(name, old(backups)[name], backup)]
               && backups == old(backups)[name := backup.(version := counter)])
      ensures ok ==> name in backups && backups[name].finalizers == backup.finalizers
    {
      var reached: bool, replied: bool := *, *;
      if !reached || name !in backups || backups[name].version != backup.version {
        failures := failures + 1;
        return false;
      }
      ownWrites := ownWrites + [OwnWrite(name, backups[name], backup)];
      counter := counter + 1;
      backups := backups[name := backup.(version := counter)];
      failures := failures + if replied then 0 else 1;
      return replied;
    }
  }

  class Handler {
    const api: ApiServer

    constructor (api: ApiServer)
      ensures this.api == api
    {
      this.api := api;
    }

    /** One attempt: read, add the finalizers, write back. */
    method TryEnsureFinalizers(name: string, finalizers: seq<string>) returns (ok: bool)
      requires api.Valid()
      requires forall f | f in finalizers :: Protective(f)
      modifies api
      ensures api.Valid() && KeepsProtection(old(api.backups), api.backups)
      ensures old(api.ownWrites) <= api.ownWrites
      ensures AllAddAtMost(api.ownWrites, |old(api.ownWrites)|, name, finalizers)
      ensures ok ==> forall f | f in finalizers :: Has(api.backups, name, f)
      ensures api.failures == old(api.failures) + if ok then 0 else 1
    {
      api.OtherWriters();
      var backup := api.GetBackup(name);
      if backup == None {
        return false;
      }
      AddingOnlyProtects(name, backup.value, finalizers);
      var changed := AddFinalizers(backup.value, finalizers);
      api.OtherWriters();
      ok := api.UpdateBackup(name, changed);
    }

    /** Tries again on any error, a bounded number of times: it fails only when each of
        eleven attempts met an error. */
    method EnsureFinalizers(name: string, finalizers: seq<string>) returns (ok: bool)
      requires api.Valid()
      requires forall f | f in finalizers :: Protective(f)
      modifies api
      ensures api.Valid() && KeepsProtection(old(api.backups), api.backups)
      ensures old(api.ownWrites) <= api.ownWrites
      ensures AllAddAtMost(api.ownWrites, |old(api.ownWrites)|, name, finalizers)
      ensures ok ==> forall f | f in finalizers :: Has(api.backups, name, f)
      ensures old(api.failures) <= api.failures
      ensures !ok ==> api.failures == old(api.failures) + 11
    {
      var attempt := 0;
      ok := false;
      while !ok && attempt <= MAX_RETRIES
        invariant api.Valid() && KeepsProtection(old(api.backups), api.backups)
        invariant old(api.ownWrites) <= api.ownWrites && (ok ==> attempt > 0) && attempt <= MAX_RETRIES + 1
        invariant AllAddAtMost(api.ownWrites, |old(api.ownWrites)|, name, finalizers)
        invariant ok ==> forall f | f in finalizers :: Has(api.backups, name, f)
        invariant api.failures == old(api.failures) + attempt - if ok then 1 else 0
        decreases !ok, MAX_RETRIES + 1 - attempt
      {
        attempt := attempt + 1;
        ok := TryEnsureFinalizers(name, finalizers);
      }
    }

    /** The loop over the listed backups that gives those of the cluster their finalizers,
        and stops at the first failure. */
    method ProtectListed(listed: seq<Item>, name: string, finalizers: seq<string>, ghost cleanupStorage: bool)
        returns (ok: bool)
      requires api.Valid()
      requires forall f | f in finalizers :: Protective(f)
      requires cleanupStorage ==> STORAGE_PROTECTION !in finalizers
      modifies api
      ensures api.Valid() && KeepsProtection(old(api.backups), api.backups)
      ensures old(api.ownWrites) <= api.ownWrites
      ensures AllWithin(api.ownWrites, |old(api.ownWrites)|, listed, name, cleanupStorage)
      ensures ok ==> forall f | f in finalizers :: AllHave(api.backups, listed, name, f)
      ensures old(api.failures) <= api.failures
      ensures !ok ==> old(api.failures) < api.failures
    {
      for k := 0 to |listed|
        invariant api.Valid() && KeepsProtection(old(api.backups), api.backups)
        invariant old(api.ownWrites) <= api.ownWrites
        invariant AllWithin(api.ownWrites, |old(api.ownWrites)|, listed, name, cleanupStorage)
        invariant forall j, f | 0 <= j < k && Concerned(listed[j], name) && f in finalizers ::
          Has(api.backups, listed[j].name, f)
        invariant old(api.failures) <= api.failures
      {
        if !Concerned(listed[k], name) {
          continue;
        }
        ghost var writes := api.ownWrites;
        ok := EnsureFinalizers(listed[k].name, finalizers);
        assert api.ownWrites[..|writes|] == writes;
        MoreWithin(api.ownWrites, |old(api.ownWrites)|, |writes|, listed, listed[k], name, cleanupStorage, finalizers);
        if !ok {
          return;
        }
      }
      ok := true;
      assert forall f | f in finalizers :: AllHave(api.backups, listed, name, f);
    }

    /** The deletion is issued only when every backup that was listed for this cluster and
        not being deleted carries the foreground finalizer, and unless the storage is to be
        cleaned up the storage-protection one, which in that case is not added. Nothing
        else is written, other writers' finalizers are preserved, and only a failed call
        keeps the deletion from being issued. */
    method DeleteDatabaseCluster(name: string, cleanupStorage: bool)
        returns (issued: bool, listed: seq<Item>)
      requires api.Valid()
      modifies api
      ensures api.Valid() && KeepsProtection(old(api.backups), api.backups)
      ensures forall n | n in old(api.backups) && issued :: Item(n, old(api.backups)[n]) in listed
      ensures issued ==> forall i | i in listed && i.backup.cluster == name && !i.backup.deleting ::
        Has(api.backups, i.name, FOREGROUND) && (cleanupStorage || Has(api.backups, i.name, STORAGE_PROTECTION))
      ensures !issued ==> old(api.failures) < api.failures
      ensures old(api.ownWrites) <= api.ownWrites
      ensures forall w | w in api.ownWrites :: OnlyProtects(w)
      ensures AllWithin(api.ownWrites, |old(api.ownWrites)|, listed, name, cleanupStorage)
    {
      issued, listed := false, [];
      var backups := api.ListBackups();
      if backups == None {
        return;
      }
      listed := backups.value;
      if !cleanupStorage {
        var ok := ProtectListed(listed, name, [STORAGE_PROTECTION, FOREGROUND], false);
        if !ok {
          return;
        }
        assert STORAGE_PROTECTION in [STORAGE_PROTECTION, FOREGROUND];
      }
      ghost var first, writes := api.backups, api.ownWrites;
      var ok := ProtectListed(listed, name, [FOREGROUND], cleanupStorage);
      assert forall k | |old(api.ownWrites)| <= k < |writes| :: api.ownWrites[k] == writes[k];
      if !ok {
        return;
      }
      assert FOREGROUND in [FOREGROUND];
      ghost var second := api.backups;
      api.OtherWriters();
      StayProtected(second, api.backups, listed, name, FOREGROUND);
      if !cleanupStorage {
        StayProtected(first, second, listed, name, STORAGE_PROTECTION);
        StayProtected(second, api.backups, listed, name, STORAGE_PROTECTION);
      }
      issued := true;
    }
  }

  ghost predicate AllHave(backups: Backups, listed: seq<Item>, cluster: string, finalizer: string) {
    forall i | i in listed && Concerned(i, cluster) :: Has(backups, i.name, finalizer)
  }

  lemma StayProtected(before: Backups, after: Backups, listed: seq<Item>, cluster: string, finalizer: string)
    requires KeepsProtection(before, after) && Protective(finalizer)
    requires AllHave(before, listed, cluster, finalizer)
    ensures AllHave(after, listed, cluster, finalizer)
  {
  }

  /** The handler looks after this item of the list. */
  predicate Concerned(i: Item, cluster: string) {
    i.backup.cluster == cluster && !i.backup.deleting
  }
}
