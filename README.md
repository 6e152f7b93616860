# Daily scraper job and markdown chunker, modelled in Dafny

This project models the core of a daily job. The job scrapes help-centre
articles, finds what changed since the previous run, uploads the new and
changed articles to a vector store, and saves a snapshot for the next run.
It also models the markdown chunker of the assistant, which splits article
files into sections with a context header.

One module per source file:

- `DeltaDetector` (`delta_detector.py`): the content hash normalisation, the
  update ladder (hash, then Last-Modified, then title), the classification of
  ids into added, updated, unchanged and removed, and the change summary.
- `Storage` (`storage.py`): the state file, the `.tmp` write and replace,
  numbered backups and the cleanup that keeps the ten newest, reset, export
  and import. The file system is a map from paths to files; a failure of any
  foreign file operation is a boolean input.
- `Chunking` (`optibot-assistant/utils/chunking.py`): the front matter
  (YAML given as a parameter, with the manual fallback parse), the `##` and
  `###` splitting, the context header, file names and statistics.
- `Uploader` (`uploader.py`): the sliding-window chunking of an article, the
  chunk header, and the batch loop of `upload_articles` with its counters.
- `Scraper` (`scraper.py`): whitespace cleaning, the article id taken from a
  URL path, and the breadcrumb rule.
- `Config` (`settings.py`): `validate` and `_get_int_env`.
- `Job` (`main.py`): `run`, from loading the previous state to saving the
  new snapshot, with `_process_changes` and `_simulate_processing`.

Shared modules: `Options`, `PyStr` (the Python string built-ins the source
uses: `strip`, `split`, `join`, `find`, `rfind`, `replace`, `int()`), `Json`
(JSON values) and `Articles` (the article and snapshot records).

Foreign code becomes parameters:

- SHA-256 and the MD5 hex digest.
- `urlparse`.
- `datetime.fromisoformat` and the clock, through `DateEnv`. Each check
  of an article may read the clock twice, once per date that fails to parse.
- `yaml.safe_load`.
- The outcome of each single-article upload, given by position.
- Whether the vector store can be found or created.

## Model

| member | source | states |
|---|---|---|
| Articles.Ids | daily-scraper-job/src/delta_detector.py:38 | every current article's id is among the current ids |
| Articles.LastIndexOf | daily-scraper-job/src/delta_detector.py:35 | the position of the last article with an id: it carries that id, and no later one does; -1 when none does |
| Articles.Lookup | daily-scraper-job/src/delta_detector.py:35 | the id lookup has exactly the ids of the list as keys |
| Articles.LookupIsLast | daily-scraper-job/src/delta_detector.py:35 | for a duplicated id the lookup holds the last article with that id |
| DeltaDetector.NormalizeContent | daily-scraper-job/src/delta_detector.py:164-178 | the text hashed for an article: stripped, with `\r\n` and then `\r` turned into `\n`; its properties are the lemmas below |
| DeltaDetector.ContentHash | daily-scraper-job/src/delta_detector.py:164-178 | the SHA-256 parameter applied to the normalised content; `LineEndingsHashAlike` states what it ignores |
| DeltaDetector.NormalizedHasNoCarriageReturn | daily-scraper-job/src/delta_detector.py:175 | no `\r` is left after normalisation |
| DeltaDetector.NormalizedIsTrimmed | daily-scraper-job/src/delta_detector.py:175 | normalised content neither starts nor ends with whitespace |
| DeltaDetector.LineEndsOfNormal | daily-scraper-job/src/delta_detector.py:175 | text without `\r` is left alone by the line-end rewrite |
| DeltaDetector.NormalizeOfNormal | daily-scraper-job/src/delta_detector.py:175 | trimmed text without `\r` is already normal |
| DeltaDetector.NormalizeIdempotent | daily-scraper-job/src/delta_detector.py:164-178 | normalising twice equals normalising once, so the hash is stable |
| DeltaDetector.LineEndingsHashAlike | daily-scraper-job/src/delta_detector.py:164-178 | CRLF and LF line ends, and surrounding blanks, give the same content hash whatever the hash function |
| DeltaDetector.NormalizeCrLfExample | daily-scraper-job/src/delta_detector.py:175 | `"a\r\nb"` normalises to `"a\nb"` |
| DeltaDetector.NormalizePaddedExample | daily-scraper-job/src/delta_detector.py:175 | `" a\nb "` normalises to `"a\nb"` |
| DeltaDetector.IsoInput | daily-scraper-job/src/delta_detector.py:150-161 | a date not ending in `Z` is handed to the parser unchanged |
| DeltaDetector.IsoInputHasNoZ | daily-scraper-job/src/delta_detector.py:150-161 | a date ending in `Z` has every `Z` replaced by `+00:00` |
| DeltaDetector.ParseDate | daily-scraper-job/src/delta_detector.py:150-161 | the parsed value when `fromisoformat` accepts the rewritten text; otherwise the clock reading it is given, as an aware date |
| DeltaDetector.IsLater | daily-scraper-job/src/delta_detector.py:124-137 | comparing a naive with an aware date fails (Python's TypeError); otherwise it is the ordering of instants |
| DeltaDetector.IsArticleUpdated | daily-scraper-job/src/delta_detector.py:98-148 | the early-return ladder as written: hash, then Last-Modified with each date parsed against its own clock reading, then title; its meaning is stated by the lemmas below |
| DeltaDetector.UpdatedIffSomeSignal | daily-scraper-job/src/delta_detector.py:98-148 | an article is updated exactly when the hash signal, the Last-Modified signal or the title signal fires |
| DeltaDetector.EqualHashesFallThrough | daily-scraper-job/src/delta_detector.py:110-121 | equal hashes decide nothing: the date and title checks still run |
| DeltaDetector.NaiveAgainstFallbackFallsThrough | daily-scraper-job/src/delta_detector.py:124-137 | an unparsable date becomes the aware clock; against a naive date the comparison fails and only the title decides |
| DeltaDetector.UnparsableDatesFollowClock | daily-scraper-job/src/delta_detector.py:124-137 | when neither date parses, the Last-Modified signal fires exactly when the clock moved between the two parses |
| DeltaDetector.ClockTickMarksUnchangedArticle | daily-scraper-job/src/delta_detector.py:124-161 | an article with the same hash, title and HTTP `Last-Modified` header in both runs is reported updated once the clock ticks; the intended ladder reports it unchanged |
| DeltaDetector.ParseDateIntended | daily-scraper-job/src/delta_detector.py:150-161 | a date is present exactly when `fromisoformat` accepts the rewritten text, and is then its value |
| DeltaDetector.IsArticleUpdatedIntended | daily-scraper-job/src/delta_detector.py:98-148 | the ladder with an unparsable date skipped instead of replaced by the clock |
| DeltaDetector.IntendedIgnoresClock | daily-scraper-job/src/delta_detector.py:124-137 | the intended decision is the same whatever the clock reads |
| DeltaDetector.IntendedSameHeaderUnchanged | daily-scraper-job/src/delta_detector.py:110-148 | with equal hashes, equal titles and the same header the intended ladder reports no update |
| DeltaDetector.Classify | daily-scraper-job/src/delta_detector.py:38-96 | added = current minus previous ids; removed = previous minus current; updated and unchanged split the common ids; forced mode leaves nothing unchanged |
| DeltaDetector.ClassifyPartitions | daily-scraper-job/src/delta_detector.py:38-96 | added, updated and unchanged are disjoint and cover the current ids |
| DeltaDetector.UpdatedUsesLastArticle | daily-scraper-job/src/delta_detector.py:62-66 | outside forced mode a common id is updated exactly when the ladder fires for the last article with that id |
| DeltaDetector.SplitCommon | daily-scraper-job/src/delta_detector.py:62-66 | the loop puts each common id into updated exactly when the ladder fires, the rest into unchanged |
| DeltaDetector.SortByVerdict | daily-scraper-job/src/delta_detector.py:62-66 | the loop puts exactly the ids with a true verdict into updated and the others into unchanged |
| DeltaDetector.DetectChanges | daily-scraper-job/src/delta_detector.py:21-96 | the method returns the four sets of the classification |
| DeltaDetector.ListOf | daily-scraper-job/src/delta_detector.py:211-228 | `list(ids)` holds each element of the set exactly once |
| DeltaDetector.ListedRefs | daily-scraper-job/src/delta_detector.py:211-228 | at most ten entries, distinct ids, each built from the looked-up article with the defaults; exactly min(10, size) when all ids are found |
| DeltaDetector.ChangePercentage | daily-scraper-job/src/delta_detector.py:206-208 | 0 for an empty scrape, otherwise changed×100/total, between 0 and 100 when changed ≤ total |
| DeltaDetector.GenerateChangeSummary | daily-scraper-job/src/delta_detector.py:180-230 | the counts equal the set sizes; each listed added or updated entry has a distinct id from its change set and carries the title and url of the last current article with that id; each list holds min(10, size) entries when all its ids are current; removed lists every removed id once; the percentage is as above |
| Config.Checks | daily-scraper-job/config/settings.py:67-95 | validation applies eight rules |
| Config.Errors | daily-scraper-job/config/settings.py:67-95 | the list `validate` returns: the messages of the failing rules, in rule order; `ValidIffNoErrors` and `Reported` state its meaning |
| Config.FailedMessages | daily-scraper-job/config/settings.py:67-95 | the messages of the first n rules that fail, in rule order; at most one per rule |
| Config.FailedMessagesEmpty | daily-scraper-job/config/settings.py:67-95 | no message exactly when no rule fails |
| Config.FailedMessagesHas | daily-scraper-job/config/settings.py:67-95 | a message is reported exactly when a rule carrying it fails |
| Config.Validate | daily-scraper-job/config/settings.py:67-95 | the error list is the messages of the failing rules in order, and empty exactly when the settings are valid |
| Config.ValidIffNoErrors | daily-scraper-job/config/settings.py:67-95 | no errors if and only if every rule holds |
| Config.MessagesDistinct | daily-scraper-job/config/settings.py:71-93 | the eight messages are pairwise different |
| Config.Reported | daily-scraper-job/config/settings.py:67-95 | each rule's message is reported exactly when that rule fails |
| Config.ChunkOrderReported | daily-scraper-job/config/settings.py:89-90 | a chunk size not above the minimum chunk size is reported |
| Config.SizeErrorsReported | daily-scraper-job/config/settings.py:83-87 | a non-positive chunk size or minimum chunk size is reported |
| Config.ApiKeyReported | daily-scraper-job/config/settings.py:71-72 | a missing or empty API key is an error only outside dry run |
| Config.RangeErrorsReported | daily-scraper-job/config/settings.py:74-93 | the limits on article count, delay, retries and log level each report exactly when they are violated |
| Config.GetIntEnv | daily-scraper-job/config/settings.py:57-65 | a missing or non-integer variable gives the default |
| Config.GetIntEnvRoundTrip | daily-scraper-job/config/settings.py:57-65 | a variable holding `str(i)` reads back as `i` |
| Storage.LoadOf | daily-scraper-job/src/storage.py:27-58 | a missing, unparsable or non-object state file loads as `{}`; a loaded state always has `articles` with a length, and anything else it loads is the file's own object |
| Storage.HasLength | daily-scraper-job/src/storage.py:48 | `len(state.get('articles', {}))` does not raise: `articles` is absent, an object, an array or a string |
| Storage.LoadOfObject | daily-scraper-job/src/storage.py:38-58 | an object state file loads as itself when its `articles` has a length, and as `{}` when the count raises |
| Storage.WithMeta | daily-scraper-job/src/storage.py:79-83 | the saved document has the state's keys plus `saved_at` and `version`; those two override, all other keys are kept |
| Storage.WithMetaHasLength | daily-scraper-job/src/storage.py:79-93 | adding the metadata keys leaves the length of the articles as it was |
| Storage.SavedArticlesReadBack | daily-scraper-job/src/storage.py:27-100 | the articles of a saved state load back unchanged when they have a length |
| Storage.BackupNumbers | daily-scraper-job/src/storage.py:117-129 | the listed backups are exactly the backup files present |
| Storage.NewerThan | daily-scraper-job/src/storage.py:117-129 | the backups sorted before a backup are other backups |
| Storage.RemovedSet | daily-scraper-job/src/storage.py:117-129 | the cleanup deletes exactly the backups at position 10 or later of the newest-first listing, stopping at the backup whose unlink raises, and none when a `stat` raises |
| Storage.Pruned | daily-scraper-job/src/storage.py:117-129 | the files after the cleanup: the deleted backups removed, everything else kept; the lemmas below state its properties |
| Storage.NewerIsKept | daily-scraper-job/src/storage.py:117-129 | a backup newer than a kept one is kept |
| Storage.PrunedKeepsNewest | daily-scraper-job/src/storage.py:117-129 | every kept backup is newer than every deleted one |
| Storage.OldestExists | daily-scraper-job/src/storage.py:117-129 | every non-empty set of backups has an oldest member |
| Storage.PrunedAtMostTen | daily-scraper-job/src/storage.py:117-129 | at most ten backups remain after the cleanup |
| Storage.FewBackupsKept | daily-scraper-job/src/storage.py:117-129 | with ten backups or fewer nothing is deleted |
| Storage.FaultKeepsMore | daily-scraper-job/src/storage.py:117-129 | a cleanup that fails keeps every backup a complete one keeps; a failed `stat` keeps them all, so more than ten can remain |
| Storage.NewestBackupKept | daily-scraper-job/src/storage.py:117-129 | the newest backup survives unchanged |
| Storage.PrunedKeepsOtherFiles | daily-scraper-job/src/storage.py:117-129 | the cleanup only deletes backups |
| Storage.BackupName | daily-scraper-job/src/storage.py:105-108 | the new backup is named after the current second: the newest name again within the same second, a later name otherwise |
| Storage.Backed | daily-scraper-job/src/storage.py:102-115 | the state file copied with its mtime to the backup name, then the cleanup; nothing changes when the copy raises |
| Storage.BackupHoldsPrevious | daily-scraper-job/src/storage.py:102-129 | a backup of a state file no older than the existing backups, under a name no earlier than theirs, survives its own cleanup and holds the state as it was; `Valid` keeps these conditions |
| Storage.SameSecondOverwrites | daily-scraper-job/src/storage.py:105-108 | a backup in the same second as an existing one replaces it: no backup is added, and that name now holds the current state |
| Storage.NewSecondAdds | daily-scraper-job/src/storage.py:105-108 | a backup under a new name, with fewer than ten present, adds exactly that backup |
| Storage.PrunedValid | daily-scraper-job/src/storage.py:117-129 | the cleanup keeps a directory the store has written valid |
| Storage.BackedValid | daily-scraper-job/src/storage.py:102-129 | a backup keeps the directory valid, with its name as the newest |
| Storage.StateManager.constructor | daily-scraper-job/src/storage.py:18-25 | the store starts on the given files, clock and newest backup name, in a directory it could have written |
| Storage.StateManager.Load | daily-scraper-job/src/storage.py:27-58 | loading is the function above on the current files |
| Storage.StateManager.CleanupOldBackups | daily-scraper-job/src/storage.py:117-129 | the files afterwards are exactly the pruned files for the way the cleanup ends: complete, stopped by a `stat`, or stopped by an unlink |
| Storage.StateManager.RemoveIfStale | daily-scraper-job/src/storage.py:124-126 | one turn of the cleanup loop unlinks the backup exactly when the specification deletes it |
| Storage.StateManager.CreateBackup | daily-scraper-job/src/storage.py:102-115 | the state file is copied to the name of the current second, overwriting a backup of the same second, then the cleanup runs; the copy survives it; nothing changes when the copy raises; the store stays valid |
| Storage.StateManager.SaveState | daily-scraper-job/src/storage.py:60-100 | the state file is replaced exactly when write and replace succeed; it reports success exactly when, in addition, the articles have a length, and then the state loads back with its metadata; a replaced state without a length loads as `{}` and reports failure; on a failed write or replace the state file is as before; the state it replaced is kept in the newest backup |
| Storage.StateManager.WriteState | daily-scraper-job/src/storage.py:85-91 | the document goes to `.tmp` and replaces the state file, which then loads as the document (or `{}` when its articles have no length); on failure the state file and every backup are untouched |
| Storage.StateManager.ResetState | daily-scraper-job/src/storage.py:166-188 | no state file: nothing to do; otherwise back up and delete; on success the state loads as `{}` |
| Storage.StateManager.ExportState | daily-scraper-job/src/storage.py:190-211 | the state as `load_state` returns it, `{}` for articles without a length, is written to the target unless the write fails |
| Storage.StateManager.ImportState | daily-scraper-job/src/storage.py:213-241 | a missing, unparsable or non-object source is refused and the state stays; otherwise it is saved as by `save_state`, and the result is true exactly when the write and the replace succeed and its articles have a length |
| Chunking.ClosingAt | optibot-assistant/utils/chunking.py:38 | the front-matter match ends at the first closing `\n---\n` after the opening `---\n`, with no earlier one |
| Chunking.CleanValue | optibot-assistant/utils/chunking.py:63 | a cleaned value is never longer than the raw one and neither starts nor ends with `'` |
| Chunking.CleanValueSpec | optibot-assistant/utils/chunking.py:63 | a cleaned value is one piece of the stripped value, and only `"` and `'` are dropped around it |
| PyStr.StripCharSpec | optibot-assistant/utils/chunking.py:63 | `s.strip(ch)` is one piece of `s`, and every character dropped around it is `ch` |
| PyStr.SplitPieceChars | optibot-assistant/utils/chunking.py:59 | every character of a piece of `split` comes from the text |
| Chunking.Entries | optibot-assistant/utils/chunking.py:59-64 | one entry per front-matter line, in order |
| Chunking.FieldKeys | optibot-assistant/utils/chunking.py:59-64 | a key is set exactly when some line with a colon carries it |
| Chunking.LastEntryWins | optibot-assistant/utils/chunking.py:59-64 | the last line carrying a key decides its value |
| Chunking.NoColonNoFields | optibot-assistant/utils/chunking.py:59-64 | lines without a colon give no fields |
| Chunking.ParseFrontMatterManual | optibot-assistant/utils/chunking.py:56-65 | the manual parse returns the fields of its lines |
| Chunking.CollectFields | optibot-assistant/utils/chunking.py:59-64 | the loop stores the entries in order, later ones overriding |
| Chunking.ParseFrontMatter | optibot-assistant/utils/chunking.py:29-54 | no match: no metadata and the content unchanged; a match: YAML result or the manual fallback, and the text after the closing fence |
| Chunking.NoOpeningNoFrontMatter | optibot-assistant/utils/chunking.py:51-52 | text that does not open with `---\n` has no front matter |
| Chunking.OneLineFrontMatter | optibot-assistant/utils/chunking.py:38-50 | a one-line block is parsed, and the body after it comes back whatever it holds |
| Chunking.IntroSections | optibot-assistant/utils/chunking.py:80-87 | at most one introduction section |
| Chunking.LeadSections | optibot-assistant/utils/chunking.py:119-126 | at most one lead section |
| Chunking.SubSections | optibot-assistant/utils/chunking.py:129-145 | at most one section per `###` piece |
| Chunking.SubSection | optibot-assistant/utils/chunking.py:137-145 | at most one section for a `###` heading and body |
| Chunking.IntroShape | optibot-assistant/utils/chunking.py:80-87 | the introduction is kept exactly when its stripped text reaches the minimum size, at level 1 |
| Chunking.LeadShape | optibot-assistant/utils/chunking.py:119-126 | the lead of a large section is kept exactly when long enough, at level 2 under the main title |
| Chunking.SubShape | optibot-assistant/utils/chunking.py:129-145 | a `###` piece is kept exactly when not blank and its body reaches the minimum, titled `main - sub` at level 3 |
| Chunking.SubSectionShape | optibot-assistant/utils/chunking.py:137-145 | the section is kept exactly when the body reaches the minimum, titled `main - sub` at level 3 |
| Chunking.SubSectionsShape | optibot-assistant/utils/chunking.py:129-145 | every `###` section is well formed at level 3 |
| Chunking.LargeShape | optibot-assistant/utils/chunking.py:111-147 | a large section yields well-formed sections at levels 2 and 3 only |
| Chunking.MainShape | optibot-assistant/utils/chunking.py:90-107 | a blank piece yields nothing; a piece within the maximum yields one level-2 section under its heading, however short |
| Chunking.MainSections | optibot-assistant/utils/chunking.py:90-107 | the sections of one `##` piece: none when blank, the large-section split above the maximum, one level-2 section otherwise; `MainShape` states it |
| Chunking.MainSectionsShape | optibot-assistant/utils/chunking.py:90-107 | every `##` piece yields well-formed sections |
| Chunking.HeaderSectionsWellFormed | optibot-assistant/utils/chunking.py:67-109 | all sections are well formed at levels 1 to 3, and only the first can be the introduction |
| Chunking.HeaderSections | optibot-assistant/utils/chunking.py:67-109 | the introduction, then the sections of every `##` piece in order; `HeaderSectionsWellFormed` states their shape |
| Chunking.NoHeadingsIntroOnly | optibot-assistant/utils/chunking.py:67-109 | text without a `##` heading yields at most the introduction |
| Chunking.SplitLargeSection | optibot-assistant/utils/chunking.py:111-147 | the loop produces the sections of the specification, in order |
| Chunking.SplitSubPieces | optibot-assistant/utils/chunking.py:128-145 | the loop over the `###` pieces produces their sections in order |
| Chunking.SplitSubPiece | optibot-assistant/utils/chunking.py:129-145 | one turn of that loop produces that piece's section |
| Chunking.SplitPiece | optibot-assistant/utils/chunking.py:91-107 | one loop turn produces that piece's sections |
| Chunking.SplitByHeaders | optibot-assistant/utils/chunking.py:67-109 | the loop produces the sections of the specification, in order |
| Chunking.SplitMainPieces | optibot-assistant/utils/chunking.py:90-107 | the loop over the `##` pieces produces their sections in order |
| Chunking.ChunkWithContextShape | optibot-assistant/utils/chunking.py:149-174 | the chunk is the six labelled header lines, a blank line, the rule and the section text verbatim |
| Chunking.ChunkWithContext | optibot-assistant/utils/chunking.py:149-174 | the header lines joined with newlines, then the section text; `ChunkWithContextShape` states its layout |
| Chunking.ContextHeaderLines | optibot-assistant/utils/chunking.py:161-173 | without newlines in the values, the header splits back into its nine lines |
| Chunking.ContextLinesFree | optibot-assistant/utils/chunking.py:161-173 | no header line holds a newline when no metadata value and no section title does |
| Chunking.ChunkFilenamesDistinct | optibot-assistant/utils/chunking.py:196 | chunks of one file get pairwise different names |
| Chunking.ChunkFilename | optibot-assistant/utils/chunking.py:196 | `<stem>_chunk_<i+1>.md`; `ChunkFilenamesDistinct` states that names differ |
| Chunking.Stem | optibot-assistant/utils/chunking.py:196 | the file name after the last `/`, without its last suffix |
| Chunking.ChunksOf | optibot-assistant/utils/chunking.py:192-202 | one chunk per section, in section order |
| Chunking.FileChunksFollowSections | optibot-assistant/utils/chunking.py:176-208 | chunks follow the sections: same order, titles and levels, each ending with its section's text, names distinct |
| Chunking.MakeChunks | optibot-assistant/utils/chunking.py:192-202 | the loop builds one chunk per section, numbered from 1 |
| Chunking.NewChunk | optibot-assistant/utils/chunking.py:193-202 | one turn of that loop builds the chunk of the specification |
| Chunking.MarkdownChunker.constructor | optibot-assistant/utils/chunking.py:21-27 | all counters start at 0 |
| Chunking.MarkdownChunker.ChunkFile | optibot-assistant/utils/chunking.py:176-208 | returns the file's chunks and adds one file, their count and their characters to the totals |
| Chunking.MarkdownChunker.GetStats | optibot-assistant/utils/chunking.py:210-215 | the totals, and the average chunk size as total characters over total chunks (0 without chunks) |
| Uploader.FormatChunkContentShape | daily-scraper-job/src/uploader.py:217-237 | the text follows a header that starts with the article lines and ends with the rule; the chunk line appears exactly after the first chunk |
| Uploader.FormatChunkContent | daily-scraper-job/src/uploader.py:217-237 | the article header, the chunk line after the first chunk, the rule, then the text; `FormatChunkContentShape` states its layout |
| Uploader.WindowEnd | daily-scraper-job/src/uploader.py:184-192 | where a window closes; the window lemmas below state its bounds and the sentence rule |
| Uploader.NextStart | daily-scraper-job/src/uploader.py:209 | the next window opens strictly after the start, at or after the overlap before the end, and no later than the end of a non-empty window, so windows leave no gap |
| Uploader.WindowNonEmpty | daily-scraper-job/src/uploader.py:184-192 | with a positive `chunk_size` a window inside the content closes after its start |
| Uploader.WindowsCover | daily-scraper-job/src/uploader.py:184-209 | every character of the content lies in some window the loop visits |
| Uploader.KeptFrom | daily-scraper-job/src/uploader.py:184-209 | the stripped window texts the loop keeps, in order: those of at least `min_chunk_size` characters |
| Uploader.KeptAreWindows | daily-scraper-job/src/uploader.py:194-209 | each kept text is a visited window's stripped text of at least `min_chunk_size` characters, and each such window text is kept |
| Uploader.WindowBounds | daily-scraper-job/src/uploader.py:184-192 | a window closes between its start and `chunk_size` on |
| Uploader.SnapsToSentenceEnd | daily-scraper-job/src/uploader.py:188-192 | with a `.` in the last 200 characters the window ends just after the last one |
| Uploader.NoSentenceEndFullWindow | daily-scraper-job/src/uploader.py:188-192 | without one the window is `chunk_size` long |
| Uploader.KeptSizes | daily-scraper-job/src/uploader.py:194-207 | every kept text has between `min_chunk_size` and `chunk_size` characters |
| Uploader.ArticleChunks | daily-scraper-job/src/uploader.py:157-215 | short content gives one chunk; every chunk records its index and the chunk count |
| Uploader.Numbered | daily-scraper-job/src/uploader.py:194-207 | one chunk per kept text |
| Uploader.CloseWindow | daily-scraper-job/src/uploader.py:184-192 | the window loop closes the window where the specification does |
| Uploader.TakeWindow | daily-scraper-job/src/uploader.py:184-209 | one turn moves forward and keeps exactly the specification's next text, numbered in turn |
| Uploader.SlideWindows | daily-scraper-job/src/uploader.py:184-209 | the loop keeps exactly the specification's texts, numbered from 0 |
| Uploader.CreateChunks | daily-scraper-job/src/uploader.py:157-215 | the method returns the chunks of the specification |
| Uploader.StampTotals | daily-scraper-job/src/uploader.py:211-213 | the final loop sets `total_chunks` of every chunk to the number of chunks and changes nothing else |
| Uploader.SuccessCount | daily-scraper-job/src/uploader.py:94-113 | successes never exceed the attempts |
| Uploader.SuccessCountSplit | daily-scraper-job/src/uploader.py:71-83 | counting per batch adds up to counting over all articles |
| Uploader.BatchesCover | daily-scraper-job/src/uploader.py:71-74 | from a boundary, the batches number ⌈rest / batch_size⌉ and cover every remaining article once |
| Uploader.AllBatches | daily-scraper-job/src/uploader.py:71-74 | there are `total_batches` batches and their sizes add up to the article count |
| Uploader.UploadOutcome | daily-scraper-job/src/uploader.py:43-92 | never more than the articles; 0 for an empty list, a missing store or an unusable batch size |
| Uploader.VectorStoreUploader.constructor | daily-scraper-job/src/uploader.py:35-41 | the counters start at 0 |
| Uploader.VectorStoreUploader.UploadBatch | daily-scraper-job/src/uploader.py:94-113 | counts the batch's successes and adds them, and the failures, to the statistics |
| Uploader.VectorStoreUploader.RunBatch | daily-scraper-job/src/uploader.py:72-79 | reports the batch with its number and size, then uploads it |
| Uploader.VectorStoreUploader.ReportBatch | daily-scraper-job/src/uploader.py:71-75 | logs the batch with its number, the batch count and its size |
| Uploader.VectorStoreUploader.UploadBatches | daily-scraper-job/src/uploader.py:66-87 | the batch loop: the successes over all articles, every batch logged once in order, and the success and failure counts updated |
| Uploader.VectorStoreUploader.UploadArticles | daily-scraper-job/src/uploader.py:43-92 | returns the outcome above, logs every batch once, and updates the success and failure counts |
| Scraper.StripAll | daily-scraper-job/src/scraper.py:319-322 | every line stripped, in order |
| Scraper.NonEmptyMembers | daily-scraper-job/src/scraper.py:319-322 | the filter keeps exactly the non-empty lines |
| Scraper.NonEmptyAppend | daily-scraper-job/src/scraper.py:319-322 | the filter keeps the order of the lines |
| Scraper.NonEmptyOfNonEmpty | daily-scraper-job/src/scraper.py:319-322 | lines without empty ones are left as they are |
| Scraper.CleanLinesShape | daily-scraper-job/src/scraper.py:316-322 | kept lines are non-empty, stripped and free of newlines |
| Scraper.CleanLineShape | daily-scraper-job/src/scraper.py:316-322 | one kept line is non-empty, stripped and newline-free |
| Scraper.CleanContent | daily-scraper-job/src/scraper.py:316-322 | the kept lines joined with newlines; the lemmas around it state its properties |
| Scraper.CleanContentLines | daily-scraper-job/src/scraper.py:316-322 | splitting the cleaned text on newlines gives the kept lines back |
| Scraper.CleanContentIdempotent | daily-scraper-job/src/scraper.py:316-322 | cleaning twice equals cleaning once |
| Scraper.LastMeaningful | daily-scraper-job/src/scraper.py:330-335 | the last path component that is non-empty and not `articles`, or none |
| Scraper.IdFromPart | daily-scraper-job/src/scraper.py:331-335 | a digit component verbatim, any other with `-` replaced by `_`, after `article_` |
| Scraper.HashPrefix | daily-scraper-job/src/scraper.py:337-340 | the first eight characters of the digest |
| Scraper.ArticleId | daily-scraper-job/src/scraper.py:324-340 | every id starts with `article_` |
| Scraper.ArticleIdSource | daily-scraper-job/src/scraper.py:324-340 | the id is the last meaningful component with `-` replaced by `_`, or the hash prefix when there is none |
| Scraper.GenerateArticleId | daily-scraper-job/src/scraper.py:324-340 | the backwards loop returns the id of the specification |
| Scraper.BreadcrumbPlacement | daily-scraper-job/src/scraper.py:299-305 | the section is the stripped last breadcrumb when there is one; the category is the one before it when there are two |
| Job.NewSnapshot | daily-scraper-job/main.py:88-99 | the new snapshot has exactly the current ids |
| Job.NewSnapshotLastWins | daily-scraper-job/main.py:88-99 | each entry is built from the last article with its id |
| Job.StateDoc | daily-scraper-job/main.py:88-99 | the state `run` saves: `last_run` and one JSON entry per snapshot id; `SnapshotRoundTrip` states that it reads back |
| Job.DecodeSnapshot | daily-scraper-job/main.py:68-71 | a state without `articles` gives an empty snapshot; a decoded one has the stored ids |
| Job.EntryRoundTrip | daily-scraper-job/main.py:91-96 | an entry written as JSON reads back as itself |
| Job.EntriesRoundTrip | daily-scraper-job/main.py:88-99 | every entry of a snapshot written as JSON is an object and reads back as the snapshot |
| Job.SnapshotRoundTrip | daily-scraper-job/main.py:88-102 | a snapshot saved with its metadata reads back as the same snapshot |
| Job.Selected | daily-scraper-job/main.py:132-146 | the scraped articles whose id is chosen, in scrape order; the lemmas below state it |
| Job.SelectedMembers | daily-scraper-job/main.py:132-135 | the selection holds exactly the articles whose id is chosen |
| Job.SelectedAppend | daily-scraper-job/main.py:132-135 | the selection keeps the order of the scrape |
| Job.SelectedDisjoint | daily-scraper-job/main.py:132-147 | with disjoint id sets no article is selected twice |
| Job.DailyScraperJob.constructor | daily-scraper-job/main.py:50-64 | all counters start at 0 |
| Job.DailyScraperJob.ProcessChanges | daily-scraper-job/main.py:128-155 | uploads the added and then the updated articles; the counters are the successes and failures; true exactly when no error was counted |
| Job.DailyScraperJob.UploadGroup | daily-scraper-job/main.py:137-139 | uploads one group and counts the successes, and the failures as errors |
| Job.DailyScraperJob.SimulateProcessing | daily-scraper-job/main.py:157-161 | the counters are the sizes of the change sets |
| Job.UploadErrors | daily-scraper-job/main.py:128-155 | the errors `_process_changes` counts are at most the articles it sends |
| Job.DryRunCompletes | daily-scraper-job/main.py:78-110 | a dry run over a state without `articles` gets through to the final statistics |
| Job.DailyScraperJob.Attempt | daily-scraper-job/main.py:56-103 | the scrape is always counted; an undecodable snapshot costs one error and saves nothing; a dry run counts the change sets and saves nothing; otherwise the errors are the failed uploads; it gets through exactly when the snapshot decodes and it is a dry run or no error was counted; a save happens only then, keeps the overwritten state as the newest backup, and reads back as this run's snapshot |
| Job.DailyScraperJob.FromSnapshot | daily-scraper-job/main.py:67-119 | an undecodable snapshot costs one error and nothing else; a decoded one goes on as `Proceed`, with the same outcome |
| Job.DailyScraperJob.Proceed | daily-scraper-job/main.py:67-103 | with the previous snapshot known: the counters of a dry run are the change-set sizes and nothing is saved; otherwise as `ProcessAndSave` |
| Job.DailyScraperJob.ProcessAndSave | daily-scraper-job/main.py:78-103 | uploads, then saves only when no error has been counted; the save reads back and keeps the overwritten state as a backup |
| Job.DailyScraperJob.Finish | daily-scraper-job/main.py:105-125 | the final statistics raise while `end_time` is unset, which costs one error and a false result; `end_time` is set afterwards in any case |
| Job.DailyScraperJob.Run | daily-scraper-job/main.py:50-125 | as written: true exactly when the job had run before and `Attempt` got through; a first run is never true and counts one more error even after a completed save; the store is saved only when `Attempt` got through, and such a save reads back |
| Job.DailyScraperJob.RunIntended | daily-scraper-job/main.py:50-125 | with the final statistics not raising: true exactly when the state decodes and it is a dry run or no error was counted; false leaves the store alone; a completed save reads back |
| Job.DailyScraperJob.SaveSnapshot | daily-scraper-job/main.py:101-102 | saves the new state; when write and replace succeed it reads back as the new snapshot; the store stays valid |
| Json.GetStrOptStr | daily-scraper-job/main.py:91-96 | a string written as JSON reads back with `.get` as itself, `None` included |
| PyStr.StripSpec | daily-scraper-job/src/scraper.py:319 | `strip` drops exactly the leading and trailing whitespace and leaves a trimmed text |
| PyStr.FindSpec | optibot-assistant/utils/chunking.py:38 | `find` returns the first occurrence of the pattern, and none exactly when there is none |
| PyStr.ParseIntToString | daily-scraper-job/config/settings.py:63 | `int(str(i))` is `i` |

## Left out

- Fetching pages, HTML parsing, sitemap discovery, the monitor, logging, and
  the rate-limit sleeps are not modelled. Scraped articles arrive as input.
  The API rate limit is assumed non-negative. A negative one makes
  `time.sleep` raise, which `upload_articles` would count as a failure after
  a success, or end with 0 between batches; that is not modelled.
- The single-article upload and the chunk file upload are not modelled. Each
  upload's success is a parameter, indexed by the article's position in the
  list passed to `upload_articles`.
- `_ensure_vector_store` is not modelled. It is one boolean, shared by both
  upload calls of a run.
- SHA-256, MD5, `urlparse`, `datetime.fromisoformat`, the clock and
  `yaml.safe_load` are parameters. YAML metadata is limited to string values.
- Python's `str.isdigit` and `int()` are modelled with ASCII digits only.
  Other Unicode decimal digits, which both accept, are not modelled. `str.strip`
  removes the characters of Python's `str.isspace`, Unicode whitespace
  included.
- An article key holding `None` and a missing key are treated as the same.
  This holds for what the scraper builds (scraper.py:210-223):
  - It stores `None` only as `last_modified`, and never sets `updated_at`.
  - The detector reads `last_modified` only through a truth test
    (delta_detector.py:125-128), where `None` and absence agree.
  - `updated_at` is only copied into the snapshot.
  - The keys read with a default (`title`, `url`, `category`, `section`) are
    always strings.

  Null or non-string entry values in an imported or hand-edited state are not
  modelled; here they read as `None`. The source would raise on a null title,
  and would fall back to the clock for a non-string `last_modified`.
- The scraper always sets `title` and `content_hash`. The `KeyError` that
  `run` would raise for a missing one is therefore not modelled.
- Job.DecodeSnapshot: refuses any snapshot entry that is not an object.
  The source raises only when a non-object entry is compared, which is when
  its id is also in the scrape.
- Job.DailyScraperJob.Run: models the exception handler for an
  undecodable previous snapshot and for the final statistics. Stored
  `articles` without a length cannot reach it, since `load_state` already
  returns `{}` for them. The result of `save_state` is ignored, as in the source.
  The start time and execution time are not modelled; the end time is modelled
  only by whether it has been set. The "## Findings" row explains why a
  false result no longer means the store was left alone.
- Chunking.ParseFrontMatter: `yaml.safe_load` is modelled as giving a
  mapping or failing. A front matter block that loads as a non-empty string,
  list or number survives `or {}`. `chunk_file` then raises at the
  `metadata.get` of chunking.py:162. That path is not modelled.
- Uploader.VectorStoreUploader.UploadArticles: the exception handler is
  modelled for a batch size of 0. Every other exception is an upload failure
  given by the outcome parameter.
- Uploader.VectorStoreUploader.UploadArticles: the batch log stands for the
  per-batch log line. Its text is not modelled.
- Storage.StateManager: the order of backups with the same modification
  time is fixed by their number. The source relies on directory order there.
- Storage.StateManager.constructor: requires a directory the store could
  have written. The state file is no newer than the clock, and every backup
  is named no later than the newest name and is no newer than the state
  file. Backups copied in by hand, or dated in the future, are not modelled.
- Storage.BackupName: the second a backup is named after never goes back.
  A wall clock that is set back is not modelled.
- Storage.StateManager.CleanupOldBackups: visits the backups in any order.
  The source visits them newest first. The unlink that raises is given by
  its position, so the files left are the same.
- DeltaDetector.ParseDate: the branch for a `datetime` argument is not
  modelled. Both dates reach it as text.
- DeltaDetector.Classify: uses the update ladder as written, clock readings
  included, so that the classification is the source's. The corrected
  ladder of "## Findings" is modelled and proved beside it.
- Chunking: the order of the `##` sections is by construction. No separate
  lemma states it.
- Chunking.ChunkFilename: the path stem is simplified to the text after the
  last `/` and before the last `.` that neither opens nor closes the name.
- Reals stand for Python floats in the change percentage and the average
  chunk size. Rounding is not modelled.
- The `Settings` object is a record of already-converted values. Reading
  the environment is modelled only by `_get_int_env`.

## Findings

| source | as written | input that shows it | evidently intended | confidence | as-written member | corrected member |
|---|---|---|---|---|---|---|
| daily-scraper-job/src/delta_detector.py:124-161 | a date that `fromisoformat` rejects becomes `datetime.now`, read separately for each of the two dates, and the article counts as updated when the second reading is later | an article with hash `h`, title `T` and `Last-Modified` `Wed, 21 Oct 2015 07:28:00 GMT` in both runs, the clock ticking between the two parses: reported updated | an unparsable date gives no Last-Modified signal, and the ladder goes on to the title | not executed | DeltaDetector.ClockTickMarksUnchangedArticle | DeltaDetector.IntendedSameHeaderUnchanged |
| daily-scraper-job/main.py:105-181 | `_log_final_stats` formats `end_time` before the `finally` sets it, so on a new job it raises `AttributeError`; the handler counts one more error and `run` returns false, after the state was already saved | any first run that gets through the save, e.g. a dry run over a state without `articles` (`DryRunCompletes`): `Run` is false on a job that has not run before | `run` returns true whenever it got through the save, with no extra error | not executed | Job.DailyScraperJob.Run | Job.DailyScraperJob.RunIntended |
