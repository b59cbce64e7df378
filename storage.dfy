/** The artifact store (StorageManager): the local backend under
    `save_location/local_store`, the `checkpoints` directory beside it, and
    remote buckets; the store/fetch operations and the two retention
    policies (age-based for local data, count-based for gradients). */
module Storage {
  import opened Common
  import opened Naming
  import opened Retention
  import opened Objects
  import opened LocalFiles

  /** Seven days, the default `max_age_days` of cleanup_local_data. */
  const DefaultMaxAgeDays: int := 7

  /** The matching remote objects, each with its parsed window, each once. */
  ghost predicate IsRemoteListing(listing: seq<Candidate<string>>, objects: map<string, Blob>,
                                  uid: string, key: string, version: string) {
    && (forall i :: 0 <= i < |listing| ==>
          listing[i].name in objects &&
          ParseRemoteWindow(listing[i].name, key, uid, version) == Some(listing[i].window))
    && (forall n :: n in objects && ParseRemoteWindow(n, key, uid, version).Some? ==>
          Candidate(ParseRemoteWindow(n, key, uid, version).value, n) in listing)
    && (forall i, j :: 0 <= i < j < |listing| ==> listing[i].name != listing[j].name)
  }

  predicate IsCheckpointFile(name: string) {
    StartsWith(name, "checkpoint-") && EndsWith(name, ".pt")
  }

  /** The walk of cleanup_local_gradients: every file under local_store/<uid>
      whose name parses, paired with its window. */
  method ListLocalGradients(files: Files, uid: string, key: string, version: string)
    returns (gradientFiles: seq<Candidate<LocalPath>>)
    ensures IsLocalListing(gradientFiles, files, uid, key, version)
  {
    var entries := set p | p in files && p.dir.uidDir == uid;
    gradientFiles := [];
    while entries != {}
      invariant entries <= (set p | p in files && p.dir.uidDir == uid)
      invariant forall i :: 0 <= i < |gradientFiles| ==>
                  gradientFiles[i].name in files && gradientFiles[i].name.dir.uidDir == uid &&
                  gradientFiles[i].name !in entries &&
                  ParseLocalWindow(gradientFiles[i].name.file, key, uid, version) == Some(gradientFiles[i].window)
      invariant forall p :: p in files && p.dir.uidDir == uid && p !in entries && ParseLocalWindow(p.file, key, uid, version).Some? ==>
                  Candidate(ParseLocalWindow(p.file, key, uid, version).value, p) in gradientFiles
      invariant forall i, j :: 0 <= i < j < |gradientFiles| ==> gradientFiles[i].name != gradientFiles[j].name
      decreases entries
    {
      var p :| p in entries;
      entries := entries - {p};
      var window := ParseLocalWindow(p.file, key, uid, version);
      if window.Some? {
        gradientFiles := gradientFiles + [Candidate(window.value, p)];
      }
    }
  }

  /** The listing of cleanup_remote_gradients: every object whose whole
      name matches the pattern, paired with its window. */
  method ListRemoteGradients(objects: map<string, Blob>, uid: string, key: string, version: string)
    returns (gradientFiles: seq<Candidate<string>>)
    ensures IsRemoteListing(gradientFiles, objects, uid, key, version)
  {
    var keys := objects.Keys;
    gradientFiles := [];
    while keys != {}
      invariant keys <= objects.Keys
      invariant forall i :: 0 <= i < |gradientFiles| ==>
                  gradientFiles[i].name in objects && gradientFiles[i].name !in keys &&
                  ParseRemoteWindow(gradientFiles[i].name, key, uid, version) == Some(gradientFiles[i].window)
      invariant forall n :: n in objects && n !in keys && ParseRemoteWindow(n, key, uid, version).Some? ==>
                  Candidate(ParseRemoteWindow(n, key, uid, version).value, n) in gradientFiles
      invariant forall i, j :: 0 <= i < j < |gradientFiles| ==> gradientFiles[i].name != gradientFiles[j].name
      decreases keys
    {
      var n :| n in keys;
      keys := keys - {n};
      var window := ParseRemoteWindow(n, key, uid, version);
      if window.Some? {
        gradientFiles := gradientFiles + [Candidate(window.value, n)];
      }
    }
  }

  /** `gradient_files.sort(...)` then `gradient_files[:len - retention]` when
      `len > retention`. */
  method SelectStale<N>(gradientFiles: seq<Candidate<N>>, retention: int) returns (stale: seq<Candidate<N>>)
    ensures stale == Evicted(gradientFiles, retention)
  {
    var sorted := SortByWindow(gradientFiles);
    stale := [];
    if |sorted| > retention {
      stale := sorted[..StaleCount(|sorted|, retention)];
    }
  }

  /** A remote bucket: the objects stored under their keys. */
  class Bucket {
    var objects: map<string, Blob>

    constructor (objects: map<string, Blob>)
      ensures this.objects == objects
    {
      this.objects := objects;
    }

    /** delete_object for each stale candidate, in order. */
    method DeleteObjects(stale: seq<Candidate<string>>)
      modifies this
      ensures objects == old(objects) - Names(stale)
    {
      var i := 0;
      while i < |stale|
        invariant 0 <= i <= |stale|
        invariant objects == old(objects) - Names(stale[..i])
      {
        assert Names(stale[..i + 1]) == Names(stale[..i]) + {stale[i].name} by {
          assert stale[..i + 1] == stale[..i] + [stale[i]];
        }
        objects := objects - {stale[i].name};
        i := i + 1;
      }
      assert stale[..|stale|] == stale;
    }
  }

  class StorageManager {
    const version: string
    /** Files under save_location/local_store. */
    var files: Files
    /** The directories local_store/<uid>/<window> and local_store/<uid>. */
    var windowDirs: set<WindowDir>
    var uidDirs: set<string>
    /** save_location/checkpoints, when it exists. */
    var checkpointDir: Option<map<string, LocalFile>>

    /** Every file sits in an existing window directory, and every window
        directory in an existing uid directory. */
    ghost predicate Valid()
      reads this
    {
      && (forall p :: p in files ==> p.dir in windowDirs)
      && (forall d :: d in windowDirs ==> d.uidDir in uidDirs)
    }

    /** __init__ touches no file: the store starts over whatever tree
        save_location/local_store already holds from earlier runs. */
    constructor (version: string, checkpointDir: Option<map<string, LocalFile>>,
                 files: Files, windowDirs: set<WindowDir>, uidDirs: set<string>)
      requires forall p :: p in files ==> p.dir in windowDirs
      requires forall d :: d in windowDirs ==> d.uidDir in uidDirs
      ensures Valid() && this.version == version && this.checkpointDir == checkpointDir
      ensures this.files == files && this.windowDirs == windowDirs && this.uidDirs == uidDirs
    {
      this.version := version;
      this.checkpointDir := checkpointDir;
      this.files, this.windowDirs, this.uidDirs := files, windowDirs, uidDirs;
    }

    // -------------------------------------------------------------------------
    // store_local / get_local

    /** `saveOk` says whether torch.save succeeded; `now` is the clock. */
    method StoreLocal(state: StateDict, uid: string, window: nat, key: string, now: real, saveOk: bool)
      returns (ok: bool)
      requires Valid()
      modifies this
      ensures Valid() && ok == saveOk && checkpointDir == old(checkpointDir)
      ensures var path := LocalPathOf(uid, window, key, version);
              var dirs := old(windowDirs) + {path.dir};
              var stored := old(files)[path := LocalFile(Saved(state), now)];
              var maxAge := DefaultMaxAgeDays * 86400;
              if !saveOk then
                files == old(files) && windowDirs == dirs && uidDirs == old(uidDirs) + {uid}
              else
                && files == (map p | p in stored && !Expired(stored[p], now, maxAge) :: stored[p])
                && windowDirs == (set d | d in dirs && Survives(stored, d, now, maxAge))
                && uidDirs == (set u | u in old(uidDirs) + {uid} && UidSurvives(stored, dirs, u, now, maxAge))
                && path in files && files[path] == LocalFile(Saved(state), now)
    {
      var path := LocalPathOf(uid, window, key, version);
      // os.makedirs(path, exist_ok=True) happens before the save is attempted
      uidDirs := uidDirs + {uid};
      windowDirs := windowDirs + {path.dir};
      if saveOk {
        files := files[path := LocalFile(Saved(state), now)];
        CleanupLocalData(DefaultMaxAgeDays, now);
        ok := true;
      } else {
        ok := false;
      }
    }

    method GetLocal(uid: string, window: nat, key: string, staleRetention: int,
                    timeMin: Option<real>, timeMax: Option<real>)
      returns (r: Option<StateDict>, ghost listing: seq<Candidate<LocalPath>>)
      requires Valid()
      modifies this
      ensures Valid()
      ensures r == LocalGetResult(old(files), LocalPathOf(uid, window, key, version))
      ensures r.None? ==> files == old(files)
      ensures r.Some? ==> IsLocalListing(listing, old(files), uid, key, version)
                          && files == old(files) - Names(Evicted(listing, staleRetention))
      ensures windowDirs == old(windowDirs) && uidDirs == old(uidDirs) && checkpointDir == old(checkpointDir)
    {
      var path := LocalPathOf(uid, window, key, version);
      listing := [];
      if path in files {
        var data := Load(files[path].blob);
        if data.Some? {
          listing := CleanupLocalGradients(uid, key, staleRetention);
          return data, listing;
        }
      }
      r := None;
    }

    // -------------------------------------------------------------------------
    // store_remote / get_remote

    /** `uploadOk` says whether torch.save and the upload succeeded. */
    method StoreRemote(state: StateDict, uid: string, window: nat, key: string, bucket: Bucket?, uploadOk: bool)
      returns (ok: bool)
      modifies bucket
      ensures bucket == null ==> !ok
      ensures bucket != null ==>
                ok == uploadOk &&
                bucket.objects == if uploadOk then old(bucket.objects)[ArtifactName(key, window, uid, version) := Saved(state)]
                                  else old(bucket.objects)
    {
      if bucket == null {
        return false;
      }
      if uploadOk {
        bucket.objects := bucket.objects[ArtifactName(key, window, uid, version) := Saved(state)];
      }
      ok := uploadOk;
    }

    method GetRemote(uid: string, window: nat, key: string, bucket: Bucket?, timeout: int, staleRetention: int,
                     timeMin: Option<real>, timeMax: Option<real>)
      returns (r: GetResult, ghost listing: seq<Candidate<string>>)
      modifies bucket
      ensures bucket == null ==> r == NoData
      ensures bucket != null ==> r == RemoteGetResult(old(bucket.objects), ArtifactName(key, window, uid, version))
      ensures bucket != null && !r.Data? ==> bucket.objects == old(bucket.objects)
      ensures bucket != null && r.Data? ==>
                IsRemoteListing(listing, old(bucket.objects), uid, key, version) &&
                bucket.objects == old(bucket.objects) - Names(Evicted(listing, staleRetention))
    {
      listing := [];
      if bucket == null {
        return NoData, listing;
      }
      var name := ArtifactName(key, window, uid, version);
      // the time bounds are not passed on
      var success := S3GetObject(Some(bucket.objects), name, true, None, None);
      if success.Marker? {
        r := Status(success.status);
      } else if success.WrittenToFile? {
        var data := Load(bucket.objects[name]);
        if data.Some? {
          listing := CleanupRemoteGradients(uid, key, staleRetention, bucket);
          r := Data(data.value);
        } else {
          r := NoData;
        }
      } else {
        r := NoData;
      }
    }

    // -------------------------------------------------------------------------
    // load_latest_checkpoint

    /** The checkpoint-*.pt file with the latest mtime, loaded; `chosen` names
        that file. The uid is not used by the source either. */
    method LoadLatestCheckpoint(uid: string) returns (r: Option<StateDict>, chosen: Option<string>)
      ensures checkpointDir.None? ==> r == None && chosen == None
      ensures checkpointDir.Some? ==>
                (chosen.None? <==> forall n :: n in checkpointDir.value ==> !IsCheckpointFile(n))
      ensures chosen.None? ==> r == None
      ensures chosen.Some? ==>
                && checkpointDir.Some?
                && var dir := checkpointDir.value;
                && chosen.value in dir && IsCheckpointFile(chosen.value)
                && (forall n :: n in dir && IsCheckpointFile(n) ==> dir[n].mtime <= dir[chosen.value].mtime)
                && r == Load(dir[chosen.value].blob)
    {
      if checkpointDir.None? {
        return None, None;
      }
      var dir := checkpointDir.value;
      var names := dir.Keys;
      var best: Option<string> := None;
      while names != {}
        invariant names <= dir.Keys
        invariant best.Some? ==> best.value in dir && IsCheckpointFile(best.value)
        invariant best.Some? ==> forall n :: n in dir.Keys - names && IsCheckpointFile(n) ==> dir[n].mtime <= dir[best.value].mtime
        invariant best.None? ==> forall n :: n in dir.Keys - names ==> !IsCheckpointFile(n)
        decreases names
      {
        var n :| n in names;
        names := names - {n};
        // max() keeps the first file with the largest mtime
        if IsCheckpointFile(n) && (best.None? || dir[n].mtime > dir[best.value].mtime) {
          best := Some(n);
        }
      }
      chosen := best;
      if best.None? {
        r := None;
      } else {
        r := Load(dir[best.value].blob);
      }
    }

    // -------------------------------------------------------------------------
    // cleanup_local_data: age-based, three nested levels

    method CleanupLocalData(maxAgeDays: int, now: real)
      requires Valid()
      modifies this
      ensures Valid()
      ensures files == map p | p in old(files) && !Expired(old(files)[p], now, maxAgeDays * 86400) :: old(files)[p]
      ensures windowDirs == set d | d in old(windowDirs) && Survives(old(files), d, now, maxAgeDays * 86400)
      ensures uidDirs == set u | u in old(uidDirs) && UidSurvives(old(files), old(windowDirs), u, now, maxAgeDays * 86400)
      ensures checkpointDir == old(checkpointDir)
    {
      var maxAge := maxAgeDays * 24 * 60 * 60;
      ghost var F0, W0, U0 := files, windowDirs, uidDirs;
      var uids := uidDirs;
      while uids != {}
        invariant Valid() && uids <= U0 && checkpointDir == old(checkpointDir)
        invariant files == PruneUids(F0, U0 - uids, now, maxAge)
        invariant windowDirs == KeptDirsOfUids(W0, F0, U0 - uids, now, maxAge)
        invariant uidDirs == KeptUids(U0, F0, W0, U0 - uids, now, maxAge)
        decreases uids
      {
        var u :| u in uids;
        ghost var done := U0 - uids;
        CleanupUidDir(u, now, maxAge);
        PruneUidsTwice(F0, done, {u}, now, maxAge);
        KeptDirsOfUidsStep(W0, F0, done, u, now, maxAge);
        KeptUidsStep(U0, W0, F0, done, u, now, maxAge);
        uids := uids - {u};
        assert U0 - uids == done + {u};
      }
      PruneAllUids(F0, U0, now, maxAge);
    }

    /** One uid directory: clean each window directory, then remove the uid
        directory if it is left empty. */
    method CleanupUidDir(u: string, now: real, maxAge: int)
      requires Valid() && u in uidDirs
      modifies this
      ensures Valid()
      ensures files == PruneUids(old(files), {u}, now, maxAge)
      ensures windowDirs == KeptDirsOfUids(old(windowDirs), old(files), {u}, now, maxAge)
      ensures uidDirs == KeptUids(old(uidDirs), old(files), old(windowDirs), {u}, now, maxAge)
      ensures checkpointDir == old(checkpointDir)
    {
      ghost var F0, W0 := files, windowDirs;
      var dirs0 := set d | d in windowDirs && d.uidDir == u;   // os.listdir(uid_path)
      var dirs := dirs0;
      while dirs != {}
        invariant Valid() && uidDirs == old(uidDirs) && checkpointDir == old(checkpointDir)
        invariant dirs <= dirs0
        invariant files == PruneDirs(F0, dirs0 - dirs, now, maxAge)
        invariant windowDirs == KeptDirs(W0, F0, dirs0 - dirs, now, maxAge)
        decreases dirs
      {
        var d :| d in dirs;
        ghost var done := dirs0 - dirs;
        CleanupWindowDir(d, now, maxAge);
        PruneDirsTwice(F0, done, {d}, now, maxAge);
        KeptDirsStep(W0, F0, done, d, now, maxAge);
        dirs := dirs - {d};
        assert dirs0 - dirs == done + {d};
      }
      PruneDirsOfUid(F0, W0, u, now, maxAge);
      KeptDirsOfUid(W0, F0, u, now, maxAge);
      UidEmptyAfterCleaning(W0, F0, u, now, maxAge);
      KeptUidsOne(uidDirs, F0, W0, u, now, maxAge);
      if (set d | d in windowDirs && d.uidDir == u) == {} {
        assert forall d :: d in windowDirs && d.uidDir == u ==> d in (set d | d in windowDirs && d.uidDir == u);
        uidDirs := uidDirs - {u};   // os.rmdir(uid_path)
      }
    }

    /** One window directory: remove its expired files, then the directory
        itself if it is left empty. */
    method CleanupWindowDir(d: WindowDir, now: real, maxAge: int)
      requires Valid() && d in windowDirs
      modifies this
      ensures Valid()
      ensures files == PruneDirs(old(files), {d}, now, maxAge)
      ensures windowDirs == KeptDirs(old(windowDirs), old(files), {d}, now, maxAge)
      ensures uidDirs == old(uidDirs) && checkpointDir == old(checkpointDir)
    {
      ghost var F0 := files;
      var entries0 := set p | p in files && p.dir == d;   // os.listdir(window_path)
      var entries := entries0;
      while entries != {}
        invariant entries <= entries0
        invariant files == PrunePaths(F0, entries0 - entries, now, maxAge)
        invariant windowDirs == old(windowDirs) && uidDirs == old(uidDirs) && checkpointDir == old(checkpointDir)
        decreases entries
      {
        var p :| p in entries;
        ghost var done := entries0 - entries;
        PrunePathsStep(F0, done, p, now, maxAge);
        if now - files[p].mtime > maxAge as real {
          files := files - {p};   // os.remove
        }
        entries := entries - {p};
        assert entries0 - entries == done + {p};
      }
      PrunePathsOfDir(F0, d, now, maxAge);
      EmptyAfterPruning(F0, d, now, maxAge);
      if (set p | p in files && p.dir == d) == {} {
        windowDirs := windowDirs - {d};   // os.rmdir(window_path)
      }
    }

    // -------------------------------------------------------------------------
    // cleanup_local_gradients / cleanup_remote_gradients: count-based

    method CleanupLocalGradients(uid: string, key: string, retention: int)
      returns (ghost listing: seq<Candidate<LocalPath>>)
      requires Valid()
      modifies this
      ensures Valid()
      ensures IsLocalListing(listing, old(files), uid, key, version)
      ensures files == old(files) - Names(Evicted(listing, retention))
      ensures windowDirs == old(windowDirs) && uidDirs == old(uidDirs) && checkpointDir == old(checkpointDir)
    {
      var gradientFiles := ListLocalGradients(files, uid, key, version);
      listing := gradientFiles;
      var stale := SelectStale(gradientFiles, retention);
      RemoveFiles(stale);
    }

    /** os.remove for each stale candidate, in order. */
    method RemoveFiles(stale: seq<Candidate<LocalPath>>)
      requires Valid()
      modifies this
      ensures Valid()
      ensures files == old(files) - Names(stale)
      ensures windowDirs == old(windowDirs) && uidDirs == old(uidDirs) && checkpointDir == old(checkpointDir)
    {
      var i := 0;
      while i < |stale|
        invariant 0 <= i <= |stale| && Valid()
        invariant files == old(files) - Names(stale[..i])
        invariant windowDirs == old(windowDirs) && uidDirs == old(uidDirs) && checkpointDir == old(checkpointDir)
      {
        assert Names(stale[..i + 1]) == Names(stale[..i]) + {stale[i].name} by {
          assert stale[..i + 1] == stale[..i] + [stale[i]];
        }
        files := files - {stale[i].name};
        i := i + 1;
      }
      assert stale[..|stale|] == stale;
    }

    method CleanupRemoteGradients(uid: string, key: string, retention: int, bucket: Bucket?)
      returns (ghost listing: seq<Candidate<string>>)
      modifies bucket
      ensures bucket == null ==> listing == []
      ensures bucket != null ==>
                IsRemoteListing(listing, old(bucket.objects), uid, key, version) &&
                bucket.objects == old(bucket.objects) - Names(Evicted(listing, retention))
    {
      listing := [];
      if bucket == null {
        return;
      }
      // list_objects_v2(Prefix=f"{key}-"), then the anchored pattern
      var gradientFiles := ListRemoteGradients(bucket.objects, uid, key, version);
      listing := gradientFiles;
      var stale := SelectStale(gradientFiles, retention);
      bucket.DeleteObjects(stale);
    }
  }

  // ---------------------------------------------------------------------------
  // What a count-based cleanup leaves

  /** After the local cleanup, a file of another uid, or one whose name does
      not parse, is still there; a matching file is still there exactly when
      the retention policy keeps it. */
  lemma LocalCleanupLeaves(listing: seq<Candidate<LocalPath>>, files: Files, uid: string, key: string,
                           version: string, retention: int)
    requires IsLocalListing(listing, files, uid, key, version)
    ensures var after := files - Names(Evicted(listing, retention));
            && (forall p :: p in files && (p.dir.uidDir != uid || ParseLocalWindow(p.file, key, uid, version).None?)
                  ==> p in after)
            && (forall c :: c in listing ==> (c.name in after <==> c in Kept(listing, retention)))
  {
    forall p | p in files && p in Names(Evicted(listing, retention))
      ensures p.dir.uidDir == uid && ParseLocalWindow(p.file, key, uid, version).Some?
    {
      var e :| e in Evicted(listing, retention) && e.name == p;
      EvictedFromListing(listing, retention, e);
      var i :| 0 <= i < |listing| && listing[i] == e;
    }
    forall c | c in listing
      ensures c.name !in Names(Evicted(listing, retention)) <==> c in Kept(listing, retention)
    {
      SurvivorsAreKept(listing, retention, c);
    }
    forall c | c in listing ensures c.name in files {
      var i :| 0 <= i < |listing| && listing[i] == c;
    }
  }

  /** After the remote cleanup, an object whose name does not match the
      pattern is still there; a matching one is still there exactly when the
      retention policy keeps it. */
  lemma RemoteCleanupLeaves(listing: seq<Candidate<string>>, objects: map<string, Blob>, uid: string, key: string,
                            version: string, retention: int)
    requires IsRemoteListing(listing, objects, uid, key, version)
    ensures var after := objects - Names(Evicted(listing, retention));
            && (forall n :: n in objects && ParseRemoteWindow(n, key, uid, version).None? ==> n in after)
            && (forall c :: c in listing ==> (c.name in after <==> c in Kept(listing, retention)))
  {
    forall n | n in objects && n in Names(Evicted(listing, retention))
      ensures ParseRemoteWindow(n, key, uid, version).Some?
    {
      var e :| e in Evicted(listing, retention) && e.name == n;
      EvictedFromListing(listing, retention, e);
      var i :| 0 <= i < |listing| && listing[i] == e;
    }
    forall c | c in listing
      ensures c.name !in Names(Evicted(listing, retention)) <==> c in Kept(listing, retention)
    {
      SurvivorsAreKept(listing, retention, c);
    }
    forall c | c in listing ensures c.name in objects {
      var i :| 0 <= i < |listing| && listing[i] == c;
    }
  }

  // ---------------------------------------------------------------------------
  // What callers may conclude from the contracts alone

  /** A local get after a successful local store returns what was stored. */
  method StoreThenGetLocal(m: StorageManager, state: StateDict, uid: string, window: nat, key: string,
                           now: real, staleRetention: int) returns (r: Option<StateDict>)
    requires m.Valid()
    modifies m
    ensures r == Some(state)
  {
    var ok := m.StoreLocal(state, uid, window, key, now, true);
    ghost var listing;
    r, listing := m.GetLocal(uid, window, key, staleRetention, None, None);
  }

  /** A remote get after a successful remote store returns what was stored. */
  method StoreThenGetRemote(m: StorageManager, state: StateDict, uid: string, window: nat, key: string,
                            bucket: Bucket, staleRetention: int) returns (r: GetResult)
    modifies bucket
    ensures r == Data(state)
  {
    var ok := m.StoreRemote(state, uid, window, key, bucket, true);
    ghost var listing;
    r, listing := m.GetRemote(uid, window, key, bucket, 30, staleRetention, None, None);
  }

  /** The remote cleanup is idempotent: a second run deletes nothing. */
  method CleanupRemoteTwice(m: StorageManager, uid: string, key: string, retention: int, bucket: Bucket)
    returns (once: map<string, Blob>)
    modifies bucket
    ensures bucket.objects == once
  {
    ghost var first := m.CleanupRemoteGradients(uid, key, retention, bucket);
    once := bucket.objects;
    ghost var second := m.CleanupRemoteGradients(uid, key, retention, bucket);
    RemoteRelisting(first, second, old(bucket.objects), uid, key, m.version, retention);
  }

  lemma RemoteRelisting(first: seq<Candidate<string>>, second: seq<Candidate<string>>,
                        objects: map<string, Blob>, uid: string, key: string, version: string, retention: int)
    requires IsRemoteListing(first, objects, uid, key, version)
    requires IsRemoteListing(second, objects - Names(Evicted(first, retention)), uid, key, version)
    ensures Evicted(second, retention) == []
  {
    forall c | c in second ensures c in first && c.name !in Names(Evicted(first, retention)) {
      var i :| 0 <= i < |second| && second[i] == c;
    }
    RelistingEvictsNothing(first, second, retention);
  }

  /** The local cleanup is idempotent as well. */
  method CleanupLocalTwice(m: StorageManager, uid: string, key: string, retention: int) returns (once: Files)
    requires m.Valid()
    modifies m
    ensures m.files == once
  {
    ghost var first := m.CleanupLocalGradients(uid, key, retention);
    once := m.files;
    ghost var second := m.CleanupLocalGradients(uid, key, retention);
    LocalRelisting(first, second, old(m.files), uid, key, m.version, retention);
  }

  lemma LocalRelisting(first: seq<Candidate<LocalPath>>, second: seq<Candidate<LocalPath>>,
                       files: Files, uid: string, key: string, version: string, retention: int)
    requires IsLocalListing(first, files, uid, key, version)
    requires IsLocalListing(second, files - Names(Evicted(first, retention)), uid, key, version)
    ensures Evicted(second, retention) == []
  {
    forall c | c in second ensures c in first && c.name !in Names(Evicted(first, retention)) {
      var i :| 0 <= i < |second| && second[i] == c;
    }
    RelistingEvictsNothing(first, second, retention);
  }
}
