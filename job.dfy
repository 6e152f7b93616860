/** The daily job that ties the parts together (daily-scraper-job/main.py):
    it reads the previous snapshot, classifies the freshly scraped
    articles, uploads the added and updated ones (or only counts them in a
    dry run), and saves the next snapshot unless something failed. The
    scrape, the clock and the outcome of every upload and file operation
    are parameters. */
module Job {
  import opened Options
  import opened Json
  import opened Articles
  import opened Config
  import opened DeltaDetector
  import opened Uploader
  import opened Storage

  // ---------------------------------------------------------------------
  // The snapshot the next run reads

  /** What the next run remembers about one article. */
  function EntryFor(a: Article): SnapshotEntry {
    SnapshotEntry(a.contentHash, a.lastModified, a.title, a.updatedAt)
  }

  /** The `articles` part of `run`'s new state: one entry per id, built in
      list order so that the last article with an id wins. */
  function NewSnapshot(current: seq<Article>): (snap: map<string, SnapshotEntry>)
    ensures snap.Keys == Ids(current)
  {
    var lookup := Lookup(current);
    map id | id in lookup :: EntryFor(lookup[id])
  }

  /** Each entry of the new snapshot copies the last article with its id. */
  lemma NewSnapshotLastWins(current: seq<Article>, id: string)
    requires id in Ids(current)
    ensures LastIndexOf(current, id) >= 0
    ensures NewSnapshot(current)[id] == EntryFor(current[LastIndexOf(current, id)])
  {
    LookupIsLast(current, id);
  }

  /** One snapshot entry as JSON. */
  function EntryJson(e: SnapshotEntry): Json {
    JObject(map[
      "hash" := OptStr(e.hash),
      "last_modified" := OptStr(e.lastModified),
      "title" := OptStr(e.title),
      "updated_at" := OptStr(e.updatedAt)])
  }

  /** The state document `run` saves. */
  function StateDoc(lastRun: string, snap: map<string, SnapshotEntry>): map<string, Json> {
    map["last_run" := JStr(lastRun),
        "articles" := JObject(map id | id in snap :: EntryJson(snap[id]))]
  }

  /** One entry as `detect_changes` reads it, with `.get`. */
  function EntryOf(fields: map<string, Json>): SnapshotEntry {
    SnapshotEntry(GetStr(fields, "hash"), GetStr(fields, "last_modified"),
                  GetStr(fields, "title"), GetStr(fields, "updated_at"))
  }

  /** The previous snapshot as the detector uses it: no `articles` key
      reads as no articles; a value or an entry that is not an object makes
      the detector raise. */
  function DecodeSnapshot(state: map<string, Json>): (r: Option<map<string, SnapshotEntry>>)
    ensures "articles" !in state ==> r == Some(map[])
    ensures r.Some? && "articles" in state ==> state["articles"].JObject? && r.value.Keys == state["articles"].fields.Keys
  {
    if "articles" !in state then Some(map[])
    else match state["articles"]
      case JObject(fields) =>
        if forall id :: id in fields ==> fields[id].JObject? then
          Some(map id | id in fields :: EntryOf(fields[id].fields))
        else None
      case _ => None
  }

  /** An entry written as JSON reads back as itself. */
  lemma EntryRoundTrip(e: SnapshotEntry)
    ensures EntryOf(EntryJson(e).fields) == e
  {
    var f := EntryJson(e).fields;
    GetStrOptStr(f, "hash", e.hash);
    GetStrOptStr(f, "last_modified", e.lastModified);
    GetStrOptStr(f, "title", e.title);
    GetStrOptStr(f, "updated_at", e.updatedAt);
  }

  /** The entries of a snapshot written as JSON read back as the snapshot. */
  lemma EntriesRoundTrip(snap: map<string, SnapshotEntry>)
    ensures var fields := map id | id in snap :: EntryJson(snap[id]);
      (forall id :: id in fields ==> fields[id].JObject?)
      && (map id | id in fields :: EntryOf(fields[id].fields)) == snap
  {
    var fields := map id | id in snap :: EntryJson(snap[id]);
    forall id | id in fields
      ensures EntryOf(fields[id].fields) == snap[id]
    {
      EntryRoundTrip(snap[id]);
    }
  }

  /** A snapshot written into a state document, saved with its metadata,
      reads back as the same snapshot. */
  lemma SnapshotRoundTrip(lastRun: string, savedAt: string, snap: map<string, SnapshotEntry>)
    ensures DecodeSnapshot(WithMeta(StateDoc(lastRun, snap), savedAt)) == Some(snap)
  {
    var saved := WithMeta(StateDoc(lastRun, snap), savedAt);
    assert saved["articles"] == JObject(map id | id in snap :: EntryJson(snap[id])) by {
      assert "articles" != SavedAtKey && "articles" != VersionKey;
    }
    EntriesRoundTrip(snap);
  }

  // ---------------------------------------------------------------------
  // Choosing what to upload

  /** The articles of the scrape whose id is chosen, in scrape order. */
  function Selected(articles: seq<Article>, ids: set<string>): seq<Article> {
    if articles == [] then []
    else if articles[0].id in ids then [articles[0]] + Selected(articles[1..], ids)
    else Selected(articles[1..], ids)
  }

  /** The selection holds exactly the articles whose id is chosen ... */
  lemma {:induction false} SelectedMembers(articles: seq<Article>, ids: set<string>, a: Article)
    ensures a in Selected(articles, ids) <==> a in articles && a.id in ids
  {
    if articles != [] {
      SelectedMembers(articles[1..], ids, a);
      assert articles == [articles[0]] + articles[1..];
    }
  }

  /** ... in list order: selecting from a concatenation selects from each
      part. */
  lemma {:induction false} SelectedAppend(xs: seq<Article>, ys: seq<Article>, ids: set<string>)
    ensures Selected(xs + ys, ids) == Selected(xs, ids) + Selected(ys, ids)
  {
    if xs == [] {
      assert xs + ys == ys;
    } else {
      assert (xs + ys)[1..] == xs[1..] + ys;
      SelectedAppend(xs[1..], ys, ids);
    }
  }

  /** Every article is selected once for each id set it belongs to: added
      and updated ids are disjoint, so no article is sent twice. */
  lemma {:induction false} SelectedDisjoint(articles: seq<Article>, a: set<string>, b: set<string>)
    requires a !! b
    ensures |Selected(articles, a)| + |Selected(articles, b)| == |Selected(articles, a + b)|
    ensures |Selected(articles, a + b)| <= |articles|
  {
    if articles != [] {
      SelectedDisjoint(articles[1..], a, b);
    }
  }

  // ---------------------------------------------------------------------
  // How far `run` gets

  /** The errors `_process_changes` counts: the articles of each non-empty
      group whose upload did not succeed. */
  function UploadErrors(changes: Changes, current: seq<Article>, batchSize: int, storeReady: bool,
                        addUploaded: nat -> bool, updateUploaded: nat -> bool): (n: nat)
    ensures n <= |Selected(current, changes.added)| + |Selected(current, changes.updated)|
  {
    var toAdd, toUpdate := Selected(current, changes.added), Selected(current, changes.updated);
    (if changes.added != {} then |toAdd| - UploadOutcome(|toAdd|, batchSize, storeReady, addUploaded) else 0)
    + (if changes.updated != {} then |toUpdate| - UploadOutcome(|toUpdate|, batchSize, storeReady, updateUploaded) else 0)
  }

  /** Whether `run`'s `try` block gets through the save: the previous
      snapshot decoded, and it is a dry run or no error has been counted
      once the uploads are done. */
  predicate Completes(settings: Settings, env: DateEnv, snapshot: Option<map<string, SnapshotEntry>>,
                      current: seq<Article>, errors: nat, batchSize: int, storeReady: bool,
                      addUploaded: nat -> bool, updateUploaded: nat -> bool)
  {
    match snapshot
    case None => false
    case Some(previous) =>
      settings.dryRun
      || errors + UploadErrors(Classify(settings, env, previous, current), current, batchSize,
                               storeReady, addUploaded, updateUploaded) == 0
  }

  /** A dry run over a state without `articles` always gets through, so
      the run that should succeed exists for every scrape. */
  lemma DryRunCompletes(settings: Settings, env: DateEnv, current: seq<Article>, errors: nat, batchSize: int,
                        storeReady: bool, addUploaded: nat -> bool, updateUploaded: nat -> bool)
    requires settings.dryRun
    ensures Completes(settings, env, DecodeSnapshot(map[]), current, errors, batchSize, storeReady, addUploaded, updateUploaded)
  {
  }

  // ---------------------------------------------------------------------
  // The job

  /** `DailyScraperJob` with the counters of its `stats`. */
  class DailyScraperJob {
    const settings: Settings
    const uploader: VectorStoreUploader
    const store: StateManager
    var totalArticles: nat
    var added: nat
    var updated: nat
    var skipped: nat
    var errors: nat
    var ended: bool  // whether `end_time` has been set

    constructor(settings: Settings, uploader: VectorStoreUploader, store: StateManager)
      ensures this.settings == settings && this.uploader == uploader && this.store == store
      ensures totalArticles == 0 && added == 0 && updated == 0 && skipped == 0 && errors == 0
      ensures !ended
    {
      this.settings, this.uploader, this.store := settings, uploader, store;
      totalArticles, added, updated, skipped, errors := 0, 0, 0, 0, 0;
      ended := false;
    }

    /** `_process_changes`: upload the added articles, then the updated
        ones, each list in the order of the scrape; count what succeeded
        and what did not. Succeeds iff no error has been counted. */
    method ProcessChanges(changes: Changes, current: seq<Article>, storeReady: bool,
                          addUploaded: nat -> bool, updateUploaded: nat -> bool) returns (ok: bool)
      modifies this, uploader
      ensures unchanged(store)
      ensures var toAdd, toUpdate := Selected(current, changes.added), Selected(current, changes.updated);
        var addedOk := UploadOutcome(|toAdd|, uploader.batchSize, storeReady, addUploaded);
        var updatedOk := UploadOutcome(|toUpdate|, uploader.batchSize, storeReady, updateUploaded);
        && uploader.received == old(uploader.received)
             + (if changes.added != {} then toAdd else [])
             + (if changes.updated != {} then toUpdate else [])
        && added == (if changes.added != {} then addedOk else old(added))
        && updated == (if changes.updated != {} then updatedOk else old(updated))
        && errors == old(errors)
             + (if changes.added != {} then |toAdd| - addedOk else 0)
             + (if changes.updated != {} then |toUpdate| - updatedOk else 0)
      ensures skipped == |changes.unmodified|
      ensures ok <==> errors == 0
      ensures totalArticles == old(totalArticles) && uploader.batchSize == old(uploader.batchSize)
      ensures ended == old(ended)
    {
      if changes.added != {} {
        added := UploadGroup(Selected(current, changes.added), storeReady, addUploaded);
      }
      if changes.updated != {} {
        updated := UploadGroup(Selected(current, changes.updated), storeReady, updateUploaded);
      }
      skipped := |changes.unmodified|;
      ok := errors == 0;
    }

    /** One upload block of `_process_changes`: upload the articles and
        count those that did not succeed as errors. */
    method UploadGroup(articles: seq<Article>, storeReady: bool, uploaded: nat -> bool) returns (successCount: nat)
      modifies this, uploader
      ensures unchanged(store)
      ensures successCount == UploadOutcome(|articles|, old(uploader.batchSize), storeReady, uploaded)
      ensures uploader.received == old(uploader.received) + articles
      ensures errors == old(errors) + (|articles| - successCount)
      ensures added == old(added) && updated == old(updated) && skipped == old(skipped)
      ensures totalArticles == old(totalArticles) && uploader.batchSize == old(uploader.batchSize)
      ensures ended == old(ended)
    {
      successCount := uploader.UploadArticles(articles, storeReady, uploaded);
      errors := errors + (|articles| - successCount);
    }

    /** `_simulate_processing`: in a dry run the counters are the sizes of
        the change sets. */
    method SimulateProcessing(changes: Changes)
      modifies this
      ensures unchanged(store)
      ensures added == |changes.added| && updated == |changes.updated| && skipped == |changes.unmodified|
      ensures errors == old(errors) && totalArticles == old(totalArticles) && ended == old(ended)
    {
      added := |changes.added|;
      updated := |changes.updated|;
      skipped := |changes.unmodified|;
    }

    /** The `try` block of `run` up to the save: load the previous state,
        and when its snapshot decodes go on as `Proceed`. It reports
        whether it got through the save. */
    method Attempt(current: seq<Article>, env: DateEnv, startTime: string, savedAt: string,
                   storeReady: bool, addUploaded: nat -> bool, updateUploaded: nat -> bool,
                   backup: BackupRun, writeFails: bool, replaceFails: bool) returns (completed: bool)
      requires store.Valid()
      modifies this, uploader, store
      ensures store.Valid() && ended == old(ended)
      ensures completed == Completes(settings, env, DecodeSnapshot(old(store.Load())), current, old(errors),
                                     old(uploader.batchSize), storeReady, addUploaded, updateUploaded)
      ensures totalArticles == |current|
      ensures DecodeSnapshot(old(store.Load())).None? ==>
        errors == old(errors) + 1 && uploader.received == old(uploader.received)
      ensures DecodeSnapshot(old(store.Load())).Some? && settings.dryRun ==>
        var changes := Classify(settings, env, DecodeSnapshot(old(store.Load())).value, current);
        added == |changes.added| && updated == |changes.updated| && skipped == |changes.unmodified|
        && errors == old(errors) && uploader.received == old(uploader.received)
      ensures DecodeSnapshot(old(store.Load())).Some? && !settings.dryRun ==>
        var changes := Classify(settings, env, DecodeSnapshot(old(store.Load())).value, current);
        skipped == |changes.unmodified|
        && errors == old(errors) + UploadErrors(changes, current, old(uploader.batchSize), storeReady, addUploaded, updateUploaded)
      ensures !completed || settings.dryRun ==> unchanged(store)
      ensures completed && !settings.dryRun && !writeFails && !replaceFails ==>
        DecodeSnapshot(store.Load()) == Some(NewSnapshot(current))
      // A save keeps the state it overwrites as the newest backup.
      ensures completed && !settings.dryRun && StateFile in old(store.files) && !backup.copyFails ==>
        var name := BackupName(old(store.lastStamp), backup);
        BackupFile(name) in store.files && store.files[BackupFile(name)] == old(store.files)[StateFile]
    {
      totalArticles := |current|;
      completed := FromSnapshot(DecodeSnapshot(store.Load()), current, env, startTime, savedAt,
                                storeReady, addUploaded, updateUploaded, backup, writeFails, replaceFails);
    }

    /** What follows the load: an undecodable snapshot makes the detector
        raise, which the handler counts as one error; otherwise `Proceed`. */
    method FromSnapshot(previous: Option<map<string, SnapshotEntry>>, current: seq<Article>, env: DateEnv,
                        startTime: string, savedAt: string,
                        storeReady: bool, addUploaded: nat -> bool, updateUploaded: nat -> bool,
                        backup: BackupRun, writeFails: bool, replaceFails: bool) returns (completed: bool)
      requires store.Valid()
      modifies this, uploader, store
      ensures store.Valid() && ended == old(ended) && totalArticles == old(totalArticles)
      ensures completed == Completes(settings, env, previous, current, old(errors),
                                     old(uploader.batchSize), storeReady, addUploaded, updateUploaded)
      ensures previous.None? ==>
        errors == old(errors) + 1 && uploader.received == old(uploader.received)
      ensures previous.Some? && settings.dryRun ==>
        var changes := Classify(settings, env, previous.value, current);
        added == |changes.added| && updated == |changes.updated| && skipped == |changes.unmodified|
        && errors == old(errors) && uploader.received == old(uploader.received)
      ensures previous.Some? && !settings.dryRun ==>
        var changes := Classify(settings, env, previous.value, current);
        skipped == |changes.unmodified|
        && errors == old(errors) + UploadErrors(changes, current, old(uploader.batchSize), storeReady, addUploaded, updateUploaded)
      ensures !completed || settings.dryRun ==> unchanged(store)
      ensures completed && !settings.dryRun && !writeFails && !replaceFails ==>
        DecodeSnapshot(store.Load()) == Some(NewSnapshot(current))
      ensures completed && !settings.dryRun && StateFile in old(store.files) && !backup.copyFails ==>
        var name := BackupName(old(store.lastStamp), backup);
        BackupFile(name) in store.files && store.files[BackupFile(name)] == old(store.files)[StateFile]
    {
      if previous.None? {
        errors := errors + 1;
        return false;
      }
      completed := Proceed(previous.value, current, env, startTime, savedAt, storeReady, addUploaded, updateUploaded,
                           backup, writeFails, replaceFails);
    }

    /** The rest of the `try` block once the previous snapshot is known:
        classify the scrape, upload the changes (or only count them in a
        dry run), and save the next snapshot. A failed upload round returns
        before the save, so the previous snapshot stays; a dry run never
        saves; a completed save reads back as this run's snapshot. */
    method Proceed(previous: map<string, SnapshotEntry>, current: seq<Article>, env: DateEnv,
                   startTime: string, savedAt: string,
                   storeReady: bool, addUploaded: nat -> bool, updateUploaded: nat -> bool,
                   backup: BackupRun, writeFails: bool, replaceFails: bool) returns (completed: bool)
      requires store.Valid()
      modifies this, uploader, store
      ensures store.Valid() && ended == old(ended) && totalArticles == old(totalArticles)
      ensures var changes := Classify(settings, env, previous, current);
        var uploadErrors := UploadErrors(changes, current, old(uploader.batchSize), storeReady, addUploaded, updateUploaded);
        && completed == (settings.dryRun || old(errors) + uploadErrors == 0)
        && (settings.dryRun ==>
              added == |changes.added| && updated == |changes.updated| && skipped == |changes.unmodified|
              && errors == old(errors) && uploader.received == old(uploader.received))
        && (!settings.dryRun ==> skipped == |changes.unmodified| && errors == old(errors) + uploadErrors)
      ensures !completed || settings.dryRun ==> unchanged(store)
      ensures completed && !settings.dryRun && !writeFails && !replaceFails ==>
        DecodeSnapshot(store.Load()) == Some(NewSnapshot(current))
      ensures completed && !settings.dryRun && StateFile in old(store.files) && !backup.copyFails ==>
        var name := BackupName(old(store.lastStamp), backup);
        BackupFile(name) in store.files && store.files[BackupFile(name)] == old(store.files)[StateFile]
    {
      var changes := DetectChanges(settings, env, previous, current);
      if !settings.dryRun {
        completed := ProcessAndSave(changes, current, startTime, savedAt, storeReady, addUploaded, updateUploaded,
                                    backup, writeFails, replaceFails);
      } else {
        SimulateProcessing(changes);
        completed := true;
      }
    }

    /** Outside a dry run: upload the changes, and save the next snapshot
        only when no error has been counted. */
    method ProcessAndSave(changes: Changes, current: seq<Article>, startTime: string, savedAt: string,
                          storeReady: bool, addUploaded: nat -> bool, updateUploaded: nat -> bool,
                          backup: BackupRun, writeFails: bool, replaceFails: bool) returns (completed: bool)
      requires store.Valid()
      modifies this, uploader, store
      ensures store.Valid() && ended == old(ended) && totalArticles == old(totalArticles)
      ensures var uploadErrors := UploadErrors(changes, current, old(uploader.batchSize), storeReady, addUploaded, updateUploaded);
        completed == (old(errors) + uploadErrors == 0)
        && skipped == |changes.unmodified| && errors == old(errors) + uploadErrors
      ensures !completed ==> unchanged(store)
      ensures completed && !writeFails && !replaceFails ==>
        DecodeSnapshot(store.Load()) == Some(NewSnapshot(current))
      ensures completed && StateFile in old(store.files) && !backup.copyFails ==>
        var name := BackupName(old(store.lastStamp), backup);
        BackupFile(name) in store.files && store.files[BackupFile(name)] == old(store.files)[StateFile]
    {
      completed := ProcessChanges(changes, current, storeReady, addUploaded, updateUploaded);
      if completed {
        SaveSnapshot(current, startTime, savedAt, backup, writeFails, replaceFails);
      }
    }

    /** `run` as written: after the `try` block gets through the save,
        `_log_final_stats` formats `end_time`, which only the `finally`
        sets. On a job that has not run before it is still `None`, the call
        raises, and the handler counts one more error and returns false, so
        the first run of a job never succeeds, whatever it saved. */
    method Run(current: seq<Article>, env: DateEnv, startTime: string, savedAt: string,
               storeReady: bool, addUploaded: nat -> bool, updateUploaded: nat -> bool,
               backup: BackupRun, writeFails: bool, replaceFails: bool) returns (ok: bool)
      requires store.Valid()
      modifies this, uploader, store
      ensures store.Valid() && ended
      ensures ok <==> old(ended) && Completes(settings, env, DecodeSnapshot(old(store.Load())), current, old(errors),
                                              old(uploader.batchSize), storeReady, addUploaded, updateUploaded)
      ensures totalArticles == |current|
      ensures DecodeSnapshot(old(store.Load())).None? ==>
        !ok && errors == old(errors) + 1 && unchanged(store)
      ensures DecodeSnapshot(old(store.Load())).Some? && settings.dryRun ==>
        var changes := Classify(settings, env, DecodeSnapshot(old(store.Load())).value, current);
        added == |changes.added| && updated == |changes.updated| && skipped == |changes.unmodified|
        && errors == old(errors) + (if old(ended) then 0 else 1)
        && unchanged(store) && uploader.received == old(uploader.received)
      ensures DecodeSnapshot(old(store.Load())).Some? && !settings.dryRun ==>
        var changes := Classify(settings, env, DecodeSnapshot(old(store.Load())).value, current);
        var uploadErrors := UploadErrors(changes, current, old(uploader.batchSize), storeReady, addUploaded, updateUploaded);
        skipped == |changes.unmodified| && (ok <==> errors == 0)
        && errors == old(errors) + uploadErrors + (if old(errors) + uploadErrors == 0 && !old(ended) then 1 else 0)
      ensures !Completes(settings, env, DecodeSnapshot(old(store.Load())), current, old(errors),
                         old(uploader.batchSize), storeReady, addUploaded, updateUploaded)
              ==> unchanged(store)
      ensures Completes(settings, env, DecodeSnapshot(old(store.Load())), current, old(errors),
                        old(uploader.batchSize), storeReady, addUploaded, updateUploaded)
              && !settings.dryRun && !writeFails && !replaceFails ==>
        DecodeSnapshot(store.Load()) == Some(NewSnapshot(current))
    {
      var completed := Attempt(current, env, startTime, savedAt, storeReady, addUploaded, updateUploaded,
                               backup, writeFails, replaceFails);
      ok := Finish(completed);
    }

    /** The end of `run` as written: `_log_final_stats` raises while
        `end_time` is unset, the handler counts it, and the `finally` sets
        `end_time`. */
    method Finish(completed: bool) returns (ok: bool)
      modifies this
      ensures ok == (completed && old(ended))
      ensures errors == old(errors) + (if completed && !old(ended) then 1 else 0)
      ensures ended
      ensures added == old(added) && updated == old(updated) && skipped == old(skipped)
      ensures totalArticles == old(totalArticles)
    {
      ok := false;
      if completed {
        if ended {
          ok := true;
        } else {
          errors := errors + 1;
        }
      }
      ended := true;
    }

    /** `run` with `_log_final_stats` reading an end time that is set
        before it: the job succeeds exactly when it gets through the save,
        and the state is saved exactly then (outside a dry run). */
    method RunIntended(current: seq<Article>, env: DateEnv, startTime: string, savedAt: string,
                       storeReady: bool, addUploaded: nat -> bool, updateUploaded: nat -> bool,
                       backup: BackupRun, writeFails: bool, replaceFails: bool) returns (ok: bool)
      requires store.Valid()
      modifies this, uploader, store
      ensures store.Valid() && ended
      ensures ok <==> Completes(settings, env, DecodeSnapshot(old(store.Load())), current, old(errors),
                                old(uploader.batchSize), storeReady, addUploaded, updateUploaded)
      ensures DecodeSnapshot(old(store.Load())).Some? && settings.dryRun ==> ok && errors == old(errors)
      ensures DecodeSnapshot(old(store.Load())).Some? && !settings.dryRun ==> (ok <==> errors == 0)
      ensures !ok || settings.dryRun ==> unchanged(store)
      ensures ok && !settings.dryRun && !writeFails && !replaceFails ==>
        DecodeSnapshot(store.Load()) == Some(NewSnapshot(current))
    {
      ok := Attempt(current, env, startTime, savedAt, storeReady, addUploaded, updateUploaded,
                    backup, writeFails, replaceFails);
      ended := true;
    }

    /** The save at the end of `run`: the snapshot of this run's articles,
        written with the time the run started. */
    method SaveSnapshot(current: seq<Article>, startTime: string, savedAt: string,
                        backup: BackupRun, writeFails: bool, replaceFails: bool)
      requires store.Valid()
      modifies store
      ensures store.Valid()
      ensures !writeFails && !replaceFails ==> DecodeSnapshot(store.Load()) == Some(NewSnapshot(current))
      ensures StateFile in old(store.files) && !backup.copyFails ==>
        var name := BackupName(old(store.lastStamp), backup);
        BackupFile(name) in store.files && store.files[BackupFile(name)] == old(store.files)[StateFile]
    {
      var snapshot := NewSnapshot(current);
      var newState := StateDoc(startTime, snapshot);
      var saved := store.SaveState(newState, savedAt, backup, writeFails, replaceFails);
      if saved {
        SnapshotRoundTrip(startTime, savedAt, snapshot);
      }
    }
  }
}
