/** The local store's file tree `local_store/<uid>/<window>/<file>` and the
    age-based pruning of cleanup_local_data, stated over whole maps so that
    the nested loops of the store can be proved one level at a time. */
module LocalFiles {
  import opened Common
  import opened Naming
  import opened Objects
  import Retention

  datatype WindowDir = WindowDir(uidDir: string, windowDir: string)
  datatype LocalPath = LocalPath(dir: WindowDir, file: string)
  datatype LocalFile = LocalFile(blob: Blob, mtime: real)

  type Files = map<LocalPath, LocalFile>

  /** `local_store/<uid>/<window>/<key>-<window>-<uid>-v<version>.pt` */
  function LocalPathOf(uid: string, window: nat, key: string, version: string): LocalPath {
    LocalPath(WindowDir(uid, NatToString(window)), ArtifactName(key, window, uid, version))
  }

  /** What get_local returns: the loaded file, or None when there is no such
      file or it does not load. */
  function LocalGetResult(files: Files, path: LocalPath): Option<StateDict> {
    if path in files then Load(files[path].blob) else None
  }

  /** `time.time() - os.path.getmtime(path) > max_age_seconds` */
  predicate Expired(f: LocalFile, now: real, maxAge: int) {
    now - f.mtime > maxAge as real
  }

  // ---------------------------------------------------------------------------
  // Pruning: the files an age-based cleanup of some scope leaves behind

  /** Drops the expired files among the paths in `scope`. */
  function PrunePaths(files: Files, scope: set<LocalPath>, now: real, maxAge: int): Files {
    map p | p in files && !(p in scope && Expired(files[p], now, maxAge)) :: files[p]
  }

  /** Drops the expired files of the directories in `scope`. */
  function PruneDirs(files: Files, scope: set<WindowDir>, now: real, maxAge: int): Files {
    map p | p in files && !(p.dir in scope && Expired(files[p], now, maxAge)) :: files[p]
  }

  /** Drops the expired files under the uid directories in `scope`. */
  function PruneUids(files: Files, scope: set<string>, now: real, maxAge: int): Files {
    map p | p in files && !(p.dir.uidDir in scope && Expired(files[p], now, maxAge)) :: files[p]
  }

  /** Some file of directory d is young enough to stay. */
  ghost predicate Survives(files: Files, d: WindowDir, now: real, maxAge: int) {
    exists p :: p in files && p.dir == d && !Expired(files[p], now, maxAge)
  }

  /** Some window directory of uid u has a file young enough to stay. */
  ghost predicate UidSurvives(files: Files, dirs: set<WindowDir>, u: string, now: real, maxAge: int) {
    exists d :: d in dirs && d.uidDir == u && Survives(files, d, now, maxAge)
  }

  /** The window directories left once those in `scope` were cleaned:
      a cleaned directory stays only while it still holds a file. */
  ghost function KeptDirs(dirs: set<WindowDir>, files: Files, scope: set<WindowDir>, now: real, maxAge: int): set<WindowDir> {
    set d | d in dirs && (d !in scope || Survives(files, d, now, maxAge))
  }

  /** The window directories left once the uids in `scope` were cleaned. */
  ghost function KeptDirsOfUids(dirs: set<WindowDir>, files: Files, scope: set<string>, now: real, maxAge: int): set<WindowDir> {
    set d | d in dirs && (d.uidDir !in scope || Survives(files, d, now, maxAge))
  }

  /** The uid directories left once the uids in `scope` were cleaned. */
  ghost function KeptUids(uids: set<string>, files: Files, dirs: set<WindowDir>, scope: set<string>,
                          now: real, maxAge: int): set<string> {
    set u | u in uids && (u !in scope || UidSurvives(files, dirs, u, now, maxAge))
  }

  // ---------------------------------------------------------------------------
  // Composition: cleaning one more scope extends what was cleaned

  lemma PrunePathsStep(files: Files, scope: set<LocalPath>, p: LocalPath, now: real, maxAge: int)
    requires p in files
    ensures var f := PrunePaths(files, scope, now, maxAge);
            PrunePaths(files, scope + {p}, now, maxAge)
              == if Expired(files[p], now, maxAge) then f - {p} else f
  {
  }

  lemma PruneDirsTwice(files: Files, a: set<WindowDir>, b: set<WindowDir>, now: real, maxAge: int)
    ensures PruneDirs(PruneDirs(files, a, now, maxAge), b, now, maxAge) == PruneDirs(files, a + b, now, maxAge)
  {
  }

  lemma PruneUidsTwice(files: Files, a: set<string>, b: set<string>, now: real, maxAge: int)
    ensures PruneUids(PruneUids(files, a, now, maxAge), b, now, maxAge) == PruneUids(files, a + b, now, maxAge)
  {
  }

  /** Cleaning every file of d, path by path, is cleaning d. */
  lemma PrunePathsOfDir(files: Files, d: WindowDir, now: real, maxAge: int)
    ensures PrunePaths(files, (set p | p in files && p.dir == d), now, maxAge) == PruneDirs(files, {d}, now, maxAge)
  {
  }

  /** Cleaning every window directory of u is cleaning u. */
  lemma PruneDirsOfUid(files: Files, dirs: set<WindowDir>, u: string, now: real, maxAge: int)
    requires forall p :: p in files ==> p.dir in dirs
    ensures PruneDirs(files, (set d | d in dirs && d.uidDir == u), now, maxAge) == PruneUids(files, {u}, now, maxAge)
  {
  }

  /** Cleaning every uid directory is dropping every expired file. */
  lemma PruneAllUids(files: Files, uids: set<string>, now: real, maxAge: int)
    requires forall p :: p in files ==> p.dir.uidDir in uids
    ensures PruneUids(files, uids, now, maxAge) == map p | p in files && !Expired(files[p], now, maxAge) :: files[p]
  {
  }

  // ---------------------------------------------------------------------------
  // Directories that have not been cleaned yet still have their files

  lemma SurvivesSameFiles(f: Files, g: Files, d: WindowDir, now: real, maxAge: int)
    requires forall p: LocalPath :: p.dir == d ==> (p in f <==> p in g)
    requires forall p :: p in f && p.dir == d ==> f[p] == g[p]
    ensures Survives(f, d, now, maxAge) == Survives(g, d, now, maxAge)
  {
    if Survives(f, d, now, maxAge) {
      var p :| p in f && p.dir == d && !Expired(f[p], now, maxAge);
      assert p in g;
    }
    if Survives(g, d, now, maxAge) {
      var p :| p in g && p.dir == d && !Expired(g[p], now, maxAge);
      assert p in f;
    }
  }

  lemma SurvivesPrunedDirs(files: Files, scope: set<WindowDir>, d: WindowDir, now: real, maxAge: int)
    requires d !in scope
    ensures Survives(PruneDirs(files, scope, now, maxAge), d, now, maxAge) == Survives(files, d, now, maxAge)
  {
    SurvivesSameFiles(PruneDirs(files, scope, now, maxAge), files, d, now, maxAge);
  }

  lemma SurvivesPrunedUids(files: Files, scope: set<string>, d: WindowDir, now: real, maxAge: int)
    requires d.uidDir !in scope
    ensures Survives(PruneUids(files, scope, now, maxAge), d, now, maxAge) == Survives(files, d, now, maxAge)
  {
    SurvivesSameFiles(PruneUids(files, scope, now, maxAge), files, d, now, maxAge);
  }

  /** Whether a window directory is left empty is decided by what it held. */
  lemma EmptyAfterPruning(files: Files, d: WindowDir, now: real, maxAge: int)
    ensures var after := PruneDirs(files, {d}, now, maxAge);
            ((set p | p in after && p.dir == d) == {}) <==> !Survives(files, d, now, maxAge)
  {
    var after := PruneDirs(files, {d}, now, maxAge);
    if Survives(files, d, now, maxAge) {
      var p :| p in files && p.dir == d && !Expired(files[p], now, maxAge);
      assert p in after;
      var left := set q | q in after && q.dir == d;
      assert p in left;
      assert left != {};
    }
  }

  /** Whether a uid directory is left empty is decided by what its window
      directories held. */
  lemma UidEmptyAfterCleaning(dirs: set<WindowDir>, files: Files, u: string, now: real, maxAge: int)
    ensures var after := KeptDirsOfUids(dirs, files, {u}, now, maxAge);
            ((set d | d in after && d.uidDir == u) == {}) <==> !UidSurvives(files, dirs, u, now, maxAge)
  {
    var after := KeptDirsOfUids(dirs, files, {u}, now, maxAge);
    if UidSurvives(files, dirs, u, now, maxAge) {
      var d :| d in dirs && d.uidDir == u && Survives(files, d, now, maxAge);
      assert d in after;
      var left := set e | e in after && e.uidDir == u;
      assert d in left;
      assert left != {};
    }
  }

  /** Cleaning one uid keeps it exactly when it survives. */
  lemma KeptUidsOne(uids: set<string>, files: Files, dirs: set<WindowDir>, u: string, now: real, maxAge: int)
    requires u in uids
    ensures KeptUids(uids, files, dirs, {u}, now, maxAge)
              == if UidSurvives(files, dirs, u, now, maxAge) then uids else uids - {u}
  {
  }

  // ---------------------------------------------------------------------------
  // Directory sets, step by step

  lemma KeptDirsStep(dirs: set<WindowDir>, files: Files, scope: set<WindowDir>, d: WindowDir, now: real, maxAge: int)
    requires d !in scope
    ensures KeptDirs(KeptDirs(dirs, files, scope, now, maxAge), PruneDirs(files, scope, now, maxAge), {d}, now, maxAge)
         == KeptDirs(dirs, files, scope + {d}, now, maxAge)
  {
    SurvivesPrunedDirs(files, scope, d, now, maxAge);
  }

  lemma KeptDirsOfUid(dirs: set<WindowDir>, files: Files, u: string, now: real, maxAge: int)
    ensures KeptDirs(dirs, files, (set d | d in dirs && d.uidDir == u), now, maxAge) == KeptDirsOfUids(dirs, files, {u}, now, maxAge)
  {
  }

  lemma KeptDirsOfUidsStep(dirs: set<WindowDir>, files: Files, scope: set<string>, u: string, now: real, maxAge: int)
    requires u !in scope
    ensures KeptDirsOfUids(KeptDirsOfUids(dirs, files, scope, now, maxAge), PruneUids(files, scope, now, maxAge), {u}, now, maxAge)
         == KeptDirsOfUids(dirs, files, scope + {u}, now, maxAge)
  {
    forall d: WindowDir | d.uidDir == u
      ensures Survives(PruneUids(files, scope, now, maxAge), d, now, maxAge) == Survives(files, d, now, maxAge)
    {
      SurvivesPrunedUids(files, scope, d, now, maxAge);
    }
  }

  lemma KeptUidsStep(uids: set<string>, dirs: set<WindowDir>, files: Files, scope: set<string>, u: string,
                     now: real, maxAge: int)
    requires u !in scope
    ensures KeptUids(KeptUids(uids, files, dirs, scope, now, maxAge), PruneUids(files, scope, now, maxAge),
                     KeptDirsOfUids(dirs, files, scope, now, maxAge), {u}, now, maxAge)
         == KeptUids(uids, files, dirs, scope + {u}, now, maxAge)
  {
    var f1 := PruneUids(files, scope, now, maxAge);
    var d1 := KeptDirsOfUids(dirs, files, scope, now, maxAge);
    forall d: WindowDir | d.uidDir == u
      ensures Survives(f1, d, now, maxAge) == Survives(files, d, now, maxAge)
    {
      SurvivesPrunedUids(files, scope, d, now, maxAge);
    }
    assert UidSurvives(f1, d1, u, now, maxAge) == UidSurvives(files, dirs, u, now, maxAge) by {
      if UidSurvives(files, dirs, u, now, maxAge) {
        var d :| d in dirs && d.uidDir == u && Survives(files, d, now, maxAge);
        assert d in d1;
      }
      if UidSurvives(f1, d1, u, now, maxAge) {
        var d :| d in d1 && d.uidDir == u && Survives(f1, d, now, maxAge);
        assert d in dirs;
      }
    }
  }

  // ---------------------------------------------------------------------------
  // The local scan of cleanup_local_gradients

  /** The matching local files of one uid, each with its parsed window, in the
      order the walk met them, each once. */
  ghost predicate IsLocalListing(listing: seq<Retention.Candidate<LocalPath>>, files: Files,
                                 uid: string, key: string, version: string) {
    && (forall i :: 0 <= i < |listing| ==>
          listing[i].name in files && listing[i].name.dir.uidDir == uid &&
          ParseLocalWindow(listing[i].name.file, key, uid, version) == Some(listing[i].window))
    && (forall p :: p in files && p.dir.uidDir == uid && ParseLocalWindow(p.file, key, uid, version).Some? ==>
          Retention.Candidate(ParseLocalWindow(p.file, key, uid, version).value, p) in listing)
    && (forall i, j :: 0 <= i < j < |listing| ==> listing[i].name != listing[j].name)
  }
}
