/** The state store: the canonical state file, the `.tmp` file written
    before each replace, and the backup directory
    (daily-scraper-job/src/storage.py). */
module Storage {
  import opened Json

  /** The files the store touches. A backup is named by the second its
      timestamp stands for; `OtherFile` is a path given to export or
      import. */
  datatype Path = StateFile | TempFile | BackupFile(n: nat) | OtherFile(name: string)

  /** A file holds a JSON document, or text that does not parse as one
      (a write that failed half-way, or any foreign content). */
  datatype Content = Doc(doc: Json) | Garbage

  datatype File = File(content: Content, mtime: int)

  type FileSystem = map<Path, File>

  /** How many backups the cleanup keeps. */
  const KeepBackups: nat := 10

  const SavedAtKey := "saved_at"
  const VersionKey := "version"
  const StateVersion := "1.0"

  // ---------------------------------------------------------------------
  // Loading and the saved document

  /** Whether `len` accepts the state's `articles`, as `len(state.get(
      'articles', {}))` needs: it is absent, an object, an array or a
      string. */
  predicate HasLength(state: map<string, Json>) {
    "articles" !in state || state["articles"].JObject? || state["articles"].JArray? || state["articles"].JStr?
  }

  /** `load_state`: the top-level object of the state file, or `{}` when
      the file is missing, does not parse, or is not an object. The
      article count it logs raises for `articles` without a length, which
      its handler also turns into `{}`. */
  function LoadOf(fs: FileSystem): (state: map<string, Json>)
    ensures HasLength(state)
    ensures StateFile !in fs ==> state == map[]
    ensures state != map[] ==> StateFile in fs && fs[StateFile].content == Doc(JObject(state))
    ensures StateFile in fs && fs[StateFile].content.Garbage? ==> state == map[]
  {
    if StateFile !in fs then map[]
    else match fs[StateFile].content
      case Doc(JObject(m)) => if HasLength(m) then m else map[]
      case _ => map[]
  }

  /** A state file holding an object loads as that object when its
      `articles` has a length, and as `{}` when it has none. */
  lemma LoadOfObject(fs: FileSystem, m: map<string, Json>)
    requires StateFile in fs && fs[StateFile].content == Doc(JObject(m))
    ensures LoadOf(fs) == if HasLength(m) then m else map[]
  {
  }

  /** The state with the save time and the version added: the two metadata keys
      override keys of the same name. */
  function WithMeta(state: map<string, Json>, savedAt: string): (m: map<string, Json>)
    ensures m.Keys == state.Keys + {SavedAtKey, VersionKey}
    ensures m[SavedAtKey] == JStr(savedAt) && m[VersionKey] == JStr(StateVersion)
    ensures forall k :: k in state && k != SavedAtKey && k != VersionKey ==> m[k] == state[k]
  {
    state[SavedAtKey := JStr(savedAt)][VersionKey := JStr(StateVersion)]
  }

  /** The metadata keys leave the articles, and so their length, alone. */
  lemma WithMetaHasLength(state: map<string, Json>, savedAt: string)
    ensures HasLength(WithMeta(state, savedAt)) <==> HasLength(state)
  {
    assert "articles" != SavedAtKey && "articles" != VersionKey;
  }

  /** A saved state's articles read back unchanged, when they have a length. */
  lemma SavedArticlesReadBack(fs: FileSystem, state: map<string, Json>, savedAt: string)
    requires StateFile in fs && fs[StateFile].content == Doc(JObject(WithMeta(state, savedAt)))
    requires "articles" in state && HasLength(state)
    ensures "articles" in LoadOf(fs) && LoadOf(fs)["articles"] == state["articles"]
  {
    assert "articles" != SavedAtKey && "articles" != VersionKey;
  }

  // ---------------------------------------------------------------------
  // Backups and their ranking

  /** The seconds of the backups present. */
  function BackupNumbers(fs: FileSystem): (ns: set<nat>)
    ensures forall n :: n in ns <==> BackupFile(n) in fs
  {
    set p | p in fs && p.BackupFile? :: p.n
  }

  /** Backup `a` sorts before backup `b` in the newest-first listing: a
      later mtime, ties broken by the name (the source leaves ties in
      directory order; any fixed order gives the same guarantees). */
  predicate Newer(fs: FileSystem, a: nat, b: nat)
    requires BackupFile(a) in fs && BackupFile(b) in fs
  {
    var ta, tb := fs[BackupFile(a)].mtime, fs[BackupFile(b)].mtime;
    ta > tb || (ta == tb && a > b)
  }

  /** The backups listed before backup `n`. */
  function NewerThan(fs: FileSystem, n: nat): (ns: set<nat>)
    requires BackupFile(n) in fs
    ensures n !in ns && ns <= BackupNumbers(fs)
  {
    set m | m in BackupNumbers(fs) && Newer(fs, m, n)
  }

  /** The index of backup `n` in the newest-first listing. */
  function Position(fs: FileSystem, n: nat): nat
    requires BackupFile(n) in fs
  {
    |NewerThan(fs, n)|
  }

  /** A backup at position 10 or later of the listing: one the cleanup
      sets out to delete. */
  predicate Stale(fs: FileSystem, n: nat)
    requires BackupFile(n) in fs
  {
    Position(fs, n) >= KeepBackups
  }

  /** How `_cleanup_old_backups` ends: it runs through; a `stat` raises
      while the listing is sorted, before anything is deleted; or the
      unlink of the backup at position `at` raises, which leaves that
      backup and every older one in place. */
  datatype CleanupFault = NoFault | StatFails | UnlinkFails(at: nat)

  /** Backup `n` is deleted by a cleanup that ends as `fault` says: the
      backups from position 10 on, up to the one whose unlink raises. */
  predicate Removed(fs: FileSystem, n: nat, fault: CleanupFault)
    requires BackupFile(n) in fs
  {
    Stale(fs, n) &&
    match fault
      case NoFault => true
      case StatFails => false
      case UnlinkFails(at) => Position(fs, n) < at
  }

  /** The backups the cleanup deletes. */
  function RemovedSet(fs: FileSystem, fault: CleanupFault): (ps: set<Path>)
    ensures forall p :: p in ps ==> p.BackupFile? && p in fs && Removed(fs, p.n, fault)
    ensures forall n :: BackupFile(n) in fs && Removed(fs, n, fault) ==> BackupFile(n) in ps
  {
    set n | n in BackupNumbers(fs) && Removed(fs, n, fault) :: BackupFile(n)
  }

  /** The file system after the cleanup. */
  function Pruned(fs: FileSystem, fault: CleanupFault): FileSystem {
    fs - RemovedSet(fs, fault)
  }

  /** A backup newer than one that is not stale is not stale either. */
  lemma NewerIsKept(fs: FileSystem, a: nat, b: nat)
    requires BackupFile(a) in fs && BackupFile(b) in fs
    requires Newer(fs, a, b) && !Stale(fs, b)
    ensures !Stale(fs, a)
  {
    forall m | m in NewerThan(fs, a) ensures m in NewerThan(fs, b) {
      assert Newer(fs, m, a);
    }
    SubsetCard(NewerThan(fs, a), NewerThan(fs, b));
  }

  /** After a cleanup that runs through, every backup kept is newer than
      every one deleted. */
  lemma PrunedKeepsNewest(fs: FileSystem, kept: nat, deleted: nat)
    requires BackupFile(kept) in Pruned(fs, NoFault) && BackupFile(deleted) in fs
    requires BackupFile(deleted) !in Pruned(fs, NoFault)
    ensures Newer(fs, kept, deleted)
  {
    assert !Stale(fs, kept) && Stale(fs, deleted);
    if !Newer(fs, kept, deleted) {
      assert kept != deleted;
      assert Newer(fs, deleted, kept);
      NewerIsKept(fs, deleted, kept);
    }
  }

  /** Every non-empty set of backups has an oldest member. */
  lemma {:induction false} OldestExists(fs: FileSystem, ns: set<nat>) returns (o: nat)
    requires ns != {} && forall n :: n in ns ==> BackupFile(n) in fs
    ensures o in ns && forall n :: n in ns && n != o ==> Newer(fs, n, o)
    decreases |ns|
  {
    var x :| x in ns;
    var rest := ns - {x};
    if rest == {} {
      o := x;
      assert ns == {x};
    } else {
      var r := OldestExists(fs, rest);
      if Newer(fs, x, r) {
        o := r;
      } else {
        o := x;
        assert x != r && Newer(fs, r, x);
        forall n | n in ns && n != x ensures Newer(fs, n, x) {
          if n != r {
            assert Newer(fs, n, r);
          }
        }
      }
    }
  }

  /** After a cleanup that runs through at most ten backups remain. */
  lemma PrunedAtMostTen(fs: FileSystem)
    ensures |BackupNumbers(Pruned(fs, NoFault))| <= KeepBackups
  {
    var kept := BackupNumbers(Pruned(fs, NoFault));
    if kept != {} {
      var o := OldestExists(fs, kept);
      assert !Stale(fs, o);
      assert kept - {o} <= NewerThan(fs, o);
      SubsetCard(kept - {o}, NewerThan(fs, o));
    }
  }

  lemma SubsetCard(a: set<nat>, b: set<nat>)
    requires a <= b
    ensures |a| <= |b|
  {
    assert b == a + (b - a);
  }

  /** With ten backups or fewer nothing is deleted, however the cleanup
      ends. */
  lemma FewBackupsKept(fs: FileSystem, fault: CleanupFault)
    requires |BackupNumbers(fs)| <= KeepBackups
    ensures Pruned(fs, fault) == fs
  {
    forall n | BackupFile(n) in fs ensures !Stale(fs, n) {
      assert NewerThan(fs, n) <= BackupNumbers(fs) - {n};
      SubsetCard(NewerThan(fs, n), BackupNumbers(fs) - {n});
    }
    assert RemovedSet(fs, fault) == {};
  }

  /** A failed cleanup keeps every backup a complete one keeps; a `stat`
      failure keeps them all, so more than ten can remain. */
  lemma FaultKeepsMore(fs: FileSystem, fault: CleanupFault)
    ensures BackupNumbers(Pruned(fs, NoFault)) <= BackupNumbers(Pruned(fs, fault))
    ensures Pruned(fs, StatFails) == fs
  {
    assert RemovedSet(fs, StatFails) == {};
  }

  /** A backup newer than all others survives the cleanup, however it
      ends. */
  lemma NewestBackupKept(fs: FileSystem, fault: CleanupFault, n: nat)
    requires BackupFile(n) in fs
    requires forall m :: BackupFile(m) in fs && m != n ==> Newer(fs, n, m)
    ensures BackupFile(n) in Pruned(fs, fault) && Pruned(fs, fault)[BackupFile(n)] == fs[BackupFile(n)]
  {
    forall m | m in BackupNumbers(fs) ensures !Newer(fs, m, n) {
      if m != n {
        assert Newer(fs, n, m);
      }
    }
    assert NewerThan(fs, n) == {};
  }

  /** The cleanup only deletes backups. */
  lemma PrunedKeepsOtherFiles(fs: FileSystem, fault: CleanupFault, p: Path)
    requires p in fs && !p.BackupFile?
    ensures p in Pruned(fs, fault) && Pruned(fs, fault)[p] == fs[p]
  {
  }

  /** How `_create_backup` goes: whether the timestamp of the backup name
      falls in the same second as the previous backup's (the names then
      collide and `copy2` overwrites that backup), whether the copy
      raises (which also skips the cleanup), and how the cleanup ends. */
  datatype BackupRun = BackupRun(sameSecond: bool, copyFails: bool, cleanup: CleanupFault)

  /** The second the new backup is named after, given the newest name. */
  function BackupName(lastStamp: nat, run: BackupRun): (n: nat)
    ensures n >= lastStamp
    ensures run.sameSecond <==> n == lastStamp
  {
    if run.sameSecond then lastStamp else lastStamp + 1
  }

  /** The file system after `_create_backup`: the state file copied with
      its mtime (`copy2`) to backup `n`, then the cleanup; nothing when the
      copy fails. */
  function Backed(fs: FileSystem, n: nat, run: BackupRun): FileSystem
    requires StateFile in fs
  {
    if run.copyFails then fs else Pruned(fs[BackupFile(n) := fs[StateFile]], run.cleanup)
  }

  /** A backup of a state file no older than the existing backups, under a
      name no earlier than theirs, survives its own cleanup: the previous
      state can be recovered after the overwrite. */
  lemma BackupHoldsPrevious(fs: FileSystem, n: nat, run: BackupRun)
    requires StateFile in fs && !run.copyFails
    requires forall m: nat :: BackupFile(m) in fs ==> m <= n && fs[BackupFile(m)].mtime <= fs[StateFile].mtime
    ensures BackupFile(n) in Backed(fs, n, run) && Backed(fs, n, run)[BackupFile(n)] == fs[StateFile]
  {
    var copied := fs[BackupFile(n) := fs[StateFile]];
    forall m: nat | BackupFile(m) in copied && m != n ensures Newer(copied, n, m) {
      assert BackupFile(m) in fs;
    }
    NewestBackupKept(copied, run.cleanup, n);
  }

  /** A backup named after the second of an existing one replaces it: the
      set of backups does not grow, and the state the older backup held
      under that name is gone from it. */
  lemma SameSecondOverwrites(fs: FileSystem, n: nat, run: BackupRun)
    requires StateFile in fs && BackupFile(n) in fs && !run.copyFails
    ensures BackupNumbers(Backed(fs, n, run)) <= BackupNumbers(fs)
    ensures BackupFile(n) in Backed(fs, n, run) ==> Backed(fs, n, run)[BackupFile(n)] == fs[StateFile]
  {
    var copied := fs[BackupFile(n) := fs[StateFile]];
    assert BackupNumbers(copied) == BackupNumbers(fs);
  }

  /** A backup under a new name, with fewer than ten backups present, adds
      exactly that backup. */
  lemma NewSecondAdds(fs: FileSystem, n: nat, run: BackupRun)
    requires StateFile in fs && BackupFile(n) !in fs && !run.copyFails
    requires |BackupNumbers(fs)| < KeepBackups
    ensures BackupNumbers(Backed(fs, n, run)) == BackupNumbers(fs) + {n}
  {
    var copied := fs[BackupFile(n) := fs[StateFile]];
    assert BackupNumbers(copied) == BackupNumbers(fs) + {n};
    FewBackupsKept(copied, run.cleanup);
  }

  /** The state file's mtime, or the clock when there is none. */
  function Latest(fs: FileSystem, clock: int): int {
    if StateFile in fs then fs[StateFile].mtime else clock
  }

  /** A directory the store itself has written: the state file is no
      newer than the clock, and every backup is named no later than the
      newest name and is no newer than the state file (than the clock,
      once the state file is deleted). */
  ghost predicate ValidStore(fs: FileSystem, clock: int, lastStamp: nat) {
    (StateFile in fs ==> fs[StateFile].mtime <= clock)
    && forall m: nat :: BackupFile(m) in fs ==> m <= lastStamp && fs[BackupFile(m)].mtime <= Latest(fs, clock)
  }

  /** The cleanup keeps a directory valid. */
  lemma PrunedValid(fs: FileSystem, clock: int, lastStamp: nat, fault: CleanupFault)
    requires ValidStore(fs, clock, lastStamp)
    ensures ValidStore(Pruned(fs, fault), clock, lastStamp)
  {
    assert StateFile in Pruned(fs, fault) <==> StateFile in fs;
  }

  /** A backup keeps a directory valid, under the name it took. */
  lemma BackedValid(fs: FileSystem, clock: int, lastStamp: nat, run: BackupRun)
    requires StateFile in fs && ValidStore(fs, clock, lastStamp)
    ensures ValidStore(Backed(fs, BackupName(lastStamp, run), run), clock,
      if run.copyFails then lastStamp else BackupName(lastStamp, run))
  {
    if !run.copyFails {
      var n := BackupName(lastStamp, run);
      var copied := fs[BackupFile(n) := fs[StateFile]];
      assert ValidStore(copied, clock, n);
      PrunedValid(copied, clock, n, run.cleanup);
    }
  }

  // ---------------------------------------------------------------------
  // The manager

  /** `StateManager`. Failures of the foreign file operations are inputs
      of each method: a `BackupRun` for the backup, `writeFails` for
      writing the `.tmp` or export file, `replaceFails` for the rename,
      `unlinkFails` for deleting the state file. */
  class StateManager {
    var files: FileSystem
    /** The instant the next write stamps as mtime; it only grows. */
    var clock: int
    /** The second the newest backup name stands for. */
    var lastStamp: nat

    ghost predicate Valid()
      reads this
    {
      ValidStore(files, clock, lastStamp)
    }

    constructor(fs: FileSystem, now: int, lastStamp: nat)
      requires ValidStore(fs, now, lastStamp)
      ensures files == fs && clock == now && this.lastStamp == lastStamp
      ensures Valid()
    {
      files := fs;
      clock := now;
      this.lastStamp := lastStamp;
    }

    /** `load_state` */
    function Load(): (state: map<string, Json>)
      reads this
      ensures state == LoadOf(files)
    {
      LoadOf(files)
    }

    /** `_cleanup_old_backups`: the backups are ranked once, then every
        backup at position 10 or later is unlinked, up to the first unlink
        that raises; a `stat` that raises during the sort stops the cleanup
        before any unlink. Which backups go depends only on their
        positions, so visiting them in any order ends in the same files. */
    method CleanupOldBackups(fault: CleanupFault)
      modifies this
      ensures files == Pruned(old(files), fault)
      ensures clock == old(clock) && lastStamp == old(lastStamp)
    {
      var listing := files;
      var numbers := BackupNumbers(listing);
      var todo := numbers;
      ghost var gone: set<Path> := {};
      while todo != {}
        invariant todo <= numbers
        invariant files == listing - gone
        invariant clock == old(clock) && lastStamp == old(lastStamp)
        invariant forall p :: p in gone <==> p.BackupFile? && p.n in numbers - todo && Removed(listing, p.n, fault)
        decreases |todo|
      {
        var n :| n in todo;
        var removed := RemoveIfStale(listing, n, fault);
        if removed {
          gone := gone + {BackupFile(n)};
        }
        todo := todo - {n};
      }
      assert gone == RemovedSet(listing, fault);
    }

    /** One backup of the cleanup loop: `n` is unlinked when it is stale
        and the fault has not stopped the cleanup before its position. */
    method RemoveIfStale(listing: FileSystem, n: nat, fault: CleanupFault) returns (removed: bool)
      requires BackupFile(n) in listing
      modifies this
      ensures removed == Removed(listing, n, fault)
      ensures files == if removed then old(files) - {BackupFile(n)} else old(files)
      ensures clock == old(clock) && lastStamp == old(lastStamp)
    {
      var position := |NewerThan(listing, n)|;
      var unlink := match fault
        case NoFault => true
        case StatFails => false
        case UnlinkFails(at) => position < at;
      removed := position >= KeepBackups && unlink;
      if removed {
        files := files - {BackupFile(n)};
      }
    }

    /** `_create_backup`, called only while the state file exists: the
        copy goes to the name of the current second, overwriting a backup
        made earlier in the same second. */
    method CreateBackup(run: BackupRun)
      requires StateFile in files && Valid()
      modifies this
      ensures Valid()
      ensures files == Backed(old(files), BackupName(old(lastStamp), run), run)
      ensures lastStamp == if run.copyFails then old(lastStamp) else BackupName(old(lastStamp), run)
      ensures clock == old(clock)
      ensures !run.copyFails ==> BackupFile(lastStamp) in files && files[BackupFile(lastStamp)] == old(files)[StateFile]
    {
      BackedValid(files, clock, lastStamp, run);
      if !run.copyFails {
        var name := BackupName(lastStamp, run);
        BackupHoldsPrevious(files, name, run);
        files := files[BackupFile(name) := files[StateFile]];
        lastStamp := name;
        CleanupOldBackups(run.cleanup);
      }
    }

    /** `save_state`: back up the existing file, write the document with
        its metadata to `.tmp`, then replace the state file with it. The
        article count it logs after the replace raises for `articles`
        without a length, so such a save replaces the file and still
        reports failure. */
    method SaveState(state: map<string, Json>, savedAt: string, run: BackupRun, writeFails: bool, replaceFails: bool)
      returns (ok: bool)
      requires Valid()
      modifies this
      ensures Valid()
      ensures ok <==> !writeFails && !replaceFails && HasLength(state)
      ensures var before := if StateFile in old(files) then Backed(old(files), BackupName(old(lastStamp), run), run) else old(files);
        var written := File(if writeFails then Garbage else Doc(JObject(WithMeta(state, savedAt))), old(clock) + 1);
        files == if !writeFails && !replaceFails then (before - {TempFile})[StateFile := written] else before[TempFile := written]
      ensures clock == old(clock) + 1
      ensures lastStamp == if StateFile in old(files) && !run.copyFails then BackupName(old(lastStamp), run) else old(lastStamp)
      // The state file is always either the previous one or the complete new document.
      ensures ok ==> Load() == WithMeta(state, savedAt)
      ensures !writeFails && !replaceFails && !HasLength(state) ==> !ok && Load() == map[]
      ensures writeFails || replaceFails ==> (StateFile in files <==> StateFile in old(files))
      ensures (writeFails || replaceFails) && StateFile in old(files) ==> files[StateFile] == old(files)[StateFile]
      // The state that was overwritten is kept in the backup just made.
      ensures StateFile in old(files) && !run.copyFails ==>
        var name := BackupName(old(lastStamp), run);
        BackupFile(name) in files && files[BackupFile(name)] == old(files)[StateFile]
    {
      if StateFile in files {
        CreateBackup(run);
      }
      WithMetaHasLength(state, savedAt);
      var replaced := WriteState(WithMeta(state, savedAt), writeFails, replaceFails);
      ok := replaced && HasLength(state);
    }

    /** The write half of `save_state`: the document goes to `.tmp`, which
        then replaces the state file. */
    method WriteState(meta: map<string, Json>, writeFails: bool, replaceFails: bool) returns (replaced: bool)
      requires Valid()
      modifies this
      ensures Valid()
      ensures replaced <==> !writeFails && !replaceFails
      ensures var written := File(if writeFails then Garbage else Doc(JObject(meta)), old(clock) + 1);
        files == if replaced then (old(files) - {TempFile})[StateFile := written] else old(files)[TempFile := written]
      ensures clock == old(clock) + 1 && lastStamp == old(lastStamp)
      ensures replaced ==> Load() == if HasLength(meta) then meta else map[]
      ensures !replaced ==> (StateFile in files <==> StateFile in old(files))
      ensures !replaced && StateFile in old(files) ==> files[StateFile] == old(files)[StateFile]
      ensures forall m: nat :: BackupFile(m) in old(files) ==> BackupFile(m) in files && files[BackupFile(m)] == old(files)[BackupFile(m)]
    {
      ghost var before := files;
      clock := clock + 1;
      var written := File(if writeFails then Garbage else Doc(JObject(meta)), clock);
      files := files[TempFile := written];
      if writeFails {
        replaced := false;
        return;
      }
      if replaceFails {
        replaced := false;
        return;
      }
      files := (files - {TempFile})[StateFile := written];
      assert files == (before - {TempFile})[StateFile := written];
      replaced := true;
    }

    /** `reset_state`: back up and delete the state file; nothing to do
        when there is none. */
    method ResetState(run: BackupRun, unlinkFails: bool) returns (ok: bool)
      requires Valid()
      modifies this
      ensures Valid()
      ensures StateFile !in old(files) ==> ok && files == old(files) && lastStamp == old(lastStamp)
      ensures StateFile in old(files) ==> ok == !unlinkFails
      ensures StateFile in old(files) ==>
        var backed := Backed(old(files), BackupName(old(lastStamp), run), run);
        files == if ok then backed - {StateFile} else backed
      ensures ok ==> StateFile !in files && Load() == map[]
      ensures clock == old(clock)
    {
      if StateFile in files {
        CreateBackup(run);
        if unlinkFails {
          ok := false;
          return;
        }
        files := files - {StateFile};
        ok := true;
      } else {
        ok := true;
      }
    }

    /** `export_state`: the loaded state written to `target`. */
    method ExportState(target: string, writeFails: bool) returns (ok: bool)
      requires Valid()
      modifies this
      ensures Valid()
      ensures ok == !writeFails
      ensures files == old(files)[OtherFile(target) :=
        File(if writeFails then Garbage else Doc(JObject(LoadOf(old(files)))), old(clock) + 1)]
      ensures clock == old(clock) + 1 && lastStamp == old(lastStamp)
    {
      var state := Load();
      clock := clock + 1;
      files := files[OtherFile(target) := File(if writeFails then Garbage else Doc(JObject(state)), clock)];
      ok := !writeFails;
    }

    /** `import_state`: a source that is missing, does not parse or is not
        an object is refused and nothing changes; otherwise it is saved,
        and the result is that of `save_state`. */
    method ImportState(source: string, savedAt: string, run: BackupRun, writeFails: bool, replaceFails: bool)
      returns (ok: bool)
      requires Valid()
      modifies this
      ensures Valid()
      ensures var src := OtherFile(source);
        !(src in old(files) && old(files)[src].content.Doc? && old(files)[src].content.doc.JObject?) ==>
          !ok && files == old(files) && clock == old(clock) && lastStamp == old(lastStamp)
      ensures ok ==> (OtherFile(source) in old(files) && old(files)[OtherFile(source)].content.Doc?
        && old(files)[OtherFile(source)].content.doc.JObject?
        && Load() == WithMeta(old(files)[OtherFile(source)].content.doc.fields, savedAt))
      ensures var src := OtherFile(source);
        src in old(files) && old(files)[src].content.Doc? && old(files)[src].content.doc.JObject? ==>
          (ok <==> !writeFails && !replaceFails && HasLength(old(files)[src].content.doc.fields))
      ensures (!ok && StateFile in old(files)) && (writeFails || replaceFails) ==>
        StateFile in files && files[StateFile] == old(files)[StateFile]
    {
      var src := OtherFile(source);
      if src !in files {
        ok := false;
        return;
      }
      match files[src].content {
        case Doc(JObject(fields)) =>
          ok := SaveState(fields, savedAt, run, writeFails, replaceFails);
        case _ =>
          ok := false;
      }
    }
  }
}
