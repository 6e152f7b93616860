/** Change detection between the previous snapshot and the freshly
    scraped articles (daily-scraper-job/src/delta_detector.py). */
module DeltaDetector {
  import opened Options
  import opened PyStr
  import opened Articles
  import opened Config

  // ---------------------------------------------------------------------
  // Content hash

  /** CRLF to LF, then any remaining CR to LF. */
  function NormalizeLineEnds(t: string): string {
    ReplaceAll(ReplaceAll(t, "\r\n", "\n"), "\r", "\n")
  }

  /** The normalisation applied before hashing: strip, then unify line ends. */
  function NormalizeContent(content: string): string {
    NormalizeLineEnds(Strip(content))
  }

  /** `compute_content_hash`, with SHA-256 (hex digest of the UTF-8
      encoding) given as a parameter. */
  function ContentHash(sha256: string -> string, content: string): string {
    sha256(NormalizeContent(content))
  }

  /** A normalised text holds no carriage return. */
  lemma NormalizedHasNoCarriageReturn(content: string)
    ensures '\r' !in NormalizeContent(content)
  {
    ReplaceAllRemovesChar(ReplaceAll(Strip(content), "\r\n", "\n"), '\r', "\n");
  }

  /** A normalised text neither starts nor ends with whitespace. */
  lemma NormalizedIsTrimmed(content: string)
    ensures Trimmed(NormalizeContent(content))
  {
    var t := Strip(content);
    var u := ReplaceAll(t, "\r\n", "\n");
    var v := ReplaceAll(u, "\r", "\n");
    if |t| > 0 {
      assert !IsSpace(t[0]) && !IsSpace(t[|t| - 1]);
      ReplaceAllFirst(t, "\r\n", "\n");
      ReplaceAllLast(t, "\r\n", "\n");
      ReplaceAllFirst(u, "\r", "\n");
      ReplaceAllLast(u, "\r", "\n");
      assert v[0] == t[0] && v[|v| - 1] == t[|t| - 1];
    }
  }

  /** Line ends without a carriage return are left alone. */
  lemma LineEndsOfNormal(n: string)
    requires '\r' !in n
    ensures NormalizeLineEnds(n) == n
  {
    ReplaceAllFree(n, "\r\n", "\n");
    ReplaceAllFree(n, "\r", "\n");
  }

  /** A trimmed text without carriage returns is already normal. */
  lemma NormalizeOfNormal(n: string)
    requires Trimmed(n) && '\r' !in n
    ensures NormalizeContent(n) == n
  {
    StripOfTrimmed(n);
    LineEndsOfNormal(n);
  }

  /** Normalising twice changes nothing. */
  lemma NormalizeIdempotent(content: string)
    ensures NormalizeContent(NormalizeContent(content)) == NormalizeContent(content)
  {
    NormalizedIsTrimmed(content);
    NormalizedHasNoCarriageReturn(content);
    NormalizeOfNormal(NormalizeContent(content));
  }

  /** CRLF and LF line ends, and surrounding blanks, hash alike. */
  lemma LineEndingsHashAlike(sha256: string -> string)
    ensures ContentHash(sha256, "a\r\nb") == ContentHash(sha256, "a\nb")
    ensures ContentHash(sha256, "a\nb") == ContentHash(sha256, " a\nb ")
  {
    NormalizeOfNormal("a\nb");
    NormalizeCrLfExample();
    NormalizePaddedExample();
  }

  lemma NormalizeCrLfExample()
    ensures NormalizeContent("a\r\nb") == "a\nb"
  {
    StripOfTrimmed("a\r\nb");
    var u := ReplaceAll("a\r\nb", "\r\n", "\n");
    assert u == "a\nb" by {
      assert ReplaceAll("b", "\r\n", "\n") == "b";
      assert ReplaceAll("\r\nb", "\r\n", "\n") == "\nb";
    }
    ReplaceAllFree(u, "\r", "\n");
  }

  lemma NormalizePaddedExample()
    ensures NormalizeContent(" a\nb ") == "a\nb"
  {
    var padded, inner := " a\nb ", "a\nb";
    assert padded[1..] == inner + " ";
    assert LStrip(inner + " ") == inner + " " by { assert !IsSpace('a'); }
    assert (inner + " ")[..|inner|] == inner;
    assert RStrip(inner) == inner by { assert !IsSpace('b'); }
    assert RStrip(inner + " ") == inner;
    assert Strip(padded) == inner;
    LineEndsOfNormal("a\nb");
  }


  // ---------------------------------------------------------------------
  // Dates

  /** A `datetime`: `ticks` counts from a fixed origin, in UTC when the
      value is timezone-aware and in wall-clock time when it is naive. */
  datatype DateTime = DateTime(ticks: int, aware: bool)

  /** The foreign parts of date handling: what `datetime.fromisoformat`
      returns for each text it accepts (a text outside `parsed` makes it
      raise), and the two readings of `datetime.now(timezone.utc)` that the
      check of one article can take, keyed by the article's id: one while
      the previous date is parsed, one while the current date is. */
  datatype DateEnv = DateEnv(parsed: map<string, DateTime>, prevNow: string -> int, currNow: string -> int)

  /** The text handed to `fromisoformat`: a trailing `Z` turns every `Z`
      into `+00:00`. */
  function IsoInput(s: string): (r: string)
    ensures !EndsWith(s, "Z") ==> r == s
  {
    if EndsWith(s, "Z") then ReplaceAll(s, "Z", "+00:00") else s
  }

  /** After the rewrite no `Z` is left in a string that ended with one. */
  lemma IsoInputHasNoZ(s: string)
    requires EndsWith(s, "Z")
    ensures 'Z' !in IsoInput(s)
  {
    ReplaceAllRemovesChar(s, 'Z', "+00:00");
  }

  /** `_parse_date`, given the clock reading `now` it would take: the
      parsed value, or `now` in UTC when parsing fails. */
  function ParseDate(env: DateEnv, s: string, now: int): (d: DateTime)
    ensures IsoInput(s) in env.parsed ==> d == env.parsed[IsoInput(s)]
    ensures IsoInput(s) !in env.parsed ==> d == DateTime(now, true)
  {
    var t := IsoInput(s);
    if t in env.parsed then env.parsed[t] else DateTime(now, true)
  }

  /** `a > b`; `None` where Python raises `TypeError` because one value is
      naive and the other aware. */
  function IsLater(a: DateTime, b: DateTime): (r: Option<bool>)
    ensures r.None? <==> a.aware != b.aware
  {
    if a.aware == b.aware then Some(a.ticks > b.ticks) else None
  }

  // ---------------------------------------------------------------------
  // Per-article decision

  /** Python truthiness of an optional string: present and non-empty. */
  predicate Present(o: Option<string>) {
    o.Some? && o.value != ""
  }

  /** The hash signal: a current hash that is new or different. */
  predicate HashSignal(s: Settings, prev: SnapshotEntry, curr: Article) {
    s.enableHashDetection && Present(curr.contentHash)
    && (prev.hash.None? || prev.hash.value == "" || prev.hash.value != curr.contentHash.value)
  }

  /** The Last-Modified signal: both dates given, of the same kind, and the
      current one strictly later, each date parsed with its own clock
      reading. */
  predicate DateSignal(s: Settings, env: DateEnv, prev: SnapshotEntry, curr: Article) {
    && s.enableLastmodDetection
    && Present(prev.lastModified) && Present(curr.lastModified)
    && var p := ParseDate(env, prev.lastModified.value, env.prevNow(curr.id));
       var c := ParseDate(env, curr.lastModified.value, env.currNow(curr.id));
       p.aware == c.aware && c.ticks > p.ticks
  }

  /** The title signal: the stripped titles differ, a missing title
      reading as the empty one. */
  predicate TitleSignal(prev: SnapshotEntry, curr: Article) {
    Strip(prev.title.GetOr("")) != Strip(curr.title.GetOr(""))
  }

  /** `_is_article_updated`: the early-return ladder hash, Last-Modified,
      title. A date comparison that raises is swallowed and the ladder goes
      on to the title. */
  function IsArticleUpdated(s: Settings, env: DateEnv, prev: SnapshotEntry, curr: Article): bool {
    if s.enableHashDetection && Present(prev.hash) && Present(curr.contentHash)
       && prev.hash.value != curr.contentHash.value then
      true
    else if s.enableHashDetection && !Present(prev.hash) && Present(curr.contentHash) then
      true
    else if s.enableLastmodDetection && Present(prev.lastModified) && Present(curr.lastModified)
       && IsLater(ParseDate(env, curr.lastModified.value, env.currNow(curr.id)),
                  ParseDate(env, prev.lastModified.value, env.prevNow(curr.id))) == Some(true) then
      true
    else
      Strip(prev.title.GetOr("")) != Strip(curr.title.GetOr(""))
  }

  /** An article is updated exactly when one of the three signals fires. */
  lemma UpdatedIffSomeSignal(s: Settings, env: DateEnv, prev: SnapshotEntry, curr: Article)
    ensures IsArticleUpdated(s, env, prev, curr)
      <==> HashSignal(s, prev, curr) || DateSignal(s, env, prev, curr) || TitleSignal(prev, curr)
  {
  }

  /** Equal, non-empty hashes decide nothing: the later signals still run. */
  lemma EqualHashesFallThrough(s: Settings, env: DateEnv, prev: SnapshotEntry, curr: Article)
    requires Present(prev.hash) && Present(curr.contentHash) && prev.hash == curr.contentHash
    ensures IsArticleUpdated(s, env, prev, curr)
      <==> DateSignal(s, env, prev, curr) || TitleSignal(prev, curr)
  {
  }

  /** A date that fails to parse is replaced by the clock in UTC, so
      against a naive parsed date the comparison raises and only the
      title can still mark the article. */
  lemma NaiveAgainstFallbackFallsThrough(s: Settings, env: DateEnv, prev: SnapshotEntry, curr: Article)
    requires !HashSignal(s, prev, curr)
    requires Present(prev.lastModified) && Present(curr.lastModified)
    requires IsoInput(curr.lastModified.value) !in env.parsed
    requires IsoInput(prev.lastModified.value) in env.parsed && !env.parsed[IsoInput(prev.lastModified.value)].aware
    ensures IsArticleUpdated(s, env, prev, curr) == TitleSignal(prev, curr)
  {
  }

  /** When neither date parses, both become clock readings, and the
      Last-Modified signal fires exactly when the clock moved between the
      two parses, whatever the dates say. */
  lemma UnparsableDatesFollowClock(s: Settings, env: DateEnv, prev: SnapshotEntry, curr: Article)
    requires s.enableLastmodDetection && Present(prev.lastModified) && Present(curr.lastModified)
    requires IsoInput(prev.lastModified.value) !in env.parsed && IsoInput(curr.lastModified.value) !in env.parsed
    ensures DateSignal(s, env, prev, curr) <==> env.currNow(curr.id) > env.prevNow(curr.id)
  {
  }

  /** An HTTP `Last-Modified` header, as the scraper stores it. */
  const HttpDate := "Wed, 21 Oct 2015 07:28:00 GMT"

  /** An article whose hash, title and `Last-Modified` header are the same
      in both runs is reported as updated when the header does not parse
      and the clock ticks between the two parses. */
  lemma ClockTickMarksUnchangedArticle(s: Settings, id: string)
    requires s.enableLastmodDetection
    ensures var prev := SnapshotEntry(Some("h"), Some(HttpDate), Some("T"), None);
      var curr := Article(id, Some("T"), None, Some("h"), None, Some(HttpDate), None, None, None);
      var env := DateEnv(map[], _ => 0, _ => 1);
      IsArticleUpdated(s, env, prev, curr) && !IsArticleUpdatedIntended(s, env, prev, curr)
  {
    assert !EndsWith(HttpDate, "Z") by { assert HttpDate[|HttpDate| - 1] == 'T'; }
  }

  /** `_parse_date` as its Last-Modified check evidently intends it: a
      date that does not parse gives no date at all. */
  function ParseDateIntended(env: DateEnv, s: string): (d: Option<DateTime>)
    ensures d.Some? <==> IsoInput(s) in env.parsed
    ensures d.Some? ==> d.value == env.parsed[IsoInput(s)]
  {
    var t := IsoInput(s);
    if t in env.parsed then Some(env.parsed[t]) else None
  }

  /** The Last-Modified signal of the intended ladder: both dates parse,
      they are of the same kind, and the current one is strictly later. */
  predicate DateSignalIntended(s: Settings, env: DateEnv, prev: SnapshotEntry, curr: Article) {
    && s.enableLastmodDetection
    && Present(prev.lastModified) && Present(curr.lastModified)
    && var p := ParseDateIntended(env, prev.lastModified.value);
       var c := ParseDateIntended(env, curr.lastModified.value);
       p.Some? && c.Some? && IsLater(c.value, p.value) == Some(true)
  }

  /** The ladder of `_is_article_updated` with an unparsable date skipped
      instead of replaced by the clock. */
  function IsArticleUpdatedIntended(s: Settings, env: DateEnv, prev: SnapshotEntry, curr: Article): bool {
    HashSignal(s, prev, curr) || DateSignalIntended(s, env, prev, curr) || TitleSignal(prev, curr)
  }

  /** The intended decision does not depend on the clock. */
  lemma IntendedIgnoresClock(s: Settings, env1: DateEnv, env2: DateEnv, prev: SnapshotEntry, curr: Article)
    requires env1.parsed == env2.parsed
    ensures IsArticleUpdatedIntended(s, env1, prev, curr) == IsArticleUpdatedIntended(s, env2, prev, curr)
  {
  }

  /** With the intended ladder an unchanged header never marks an article:
      equal hashes and titles and the same header mean not updated. */
  lemma IntendedSameHeaderUnchanged(s: Settings, env: DateEnv, prev: SnapshotEntry, curr: Article)
    requires Present(prev.hash) && prev.hash == curr.contentHash
    requires prev.lastModified == curr.lastModified && !TitleSignal(prev, curr)
    ensures !IsArticleUpdatedIntended(s, env, prev, curr)
  {
  }

  // ---------------------------------------------------------------------
  // Change sets

  /** The four id sets `detect_changes` returns (`unmodified` is its
      `unchanged` set). */
  datatype Changes = Changes(added: set<string>, updated: set<string>, unmodified: set<string>, removed: set<string>)

  /** The classification `detect_changes` computes, stated over sets. */
  function Classify(s: Settings, env: DateEnv, previous: map<string, SnapshotEntry>, current: seq<Article>): (c: Changes)
    ensures c.added == Ids(current) - previous.Keys
    ensures c.removed == previous.Keys - Ids(current)
    ensures c.updated + c.unmodified == Ids(current) * previous.Keys
    ensures c.updated !! c.unmodified
    ensures s.forceFullUpdate ==> c.unmodified == {}
  {
    var lookup := Lookup(current);
    var common := lookup.Keys * previous.Keys;
    var updated :=
      if s.forceFullUpdate then common
      else set id | id in common && IsArticleUpdated(s, env, previous[id], lookup[id]);
    Changes(lookup.Keys - previous.Keys, updated, common - updated, previous.Keys - lookup.Keys)
  }

  /** Added, updated and unchanged split the current ids with no overlap;
      removed ids are exactly the previous ones no longer present. */
  lemma {:induction false} ClassifyPartitions(s: Settings, env: DateEnv, previous: map<string, SnapshotEntry>, current: seq<Article>)
    ensures var c := Classify(s, env, previous, current);
      && c.added + c.updated + c.unmodified == Ids(current)
      && c.added !! c.updated && c.added !! c.unmodified && c.updated !! c.unmodified
      && c.removed !! Ids(current)
  {
  }

  /** Outside forced mode a common id is updated exactly when the ladder
      says so for its previous entry and the LAST current article with
      that id. */
  lemma UpdatedUsesLastArticle(s: Settings, env: DateEnv, previous: map<string, SnapshotEntry>, current: seq<Article>, id: string)
    requires !s.forceFullUpdate
    requires id in Ids(current) && id in previous
    ensures LastIndexOf(current, id) >= 0
    ensures id in Classify(s, env, previous, current).updated
      <==> IsArticleUpdated(s, env, previous[id], current[LastIndexOf(current, id)])
  {
    LookupIsLast(current, id);
  }

  /** The ids both snapshots hold, each with the ladder's verdict on its
      previous entry and its current article. */
  method SplitCommon(s: Settings, env: DateEnv, previous: map<string, SnapshotEntry>, lookup: map<string, Article>,
                     common: set<string>)
    returns (updated: set<string>, unmodified: set<string>)
    requires common <= previous.Keys && common <= lookup.Keys
    ensures updated == set id | id in common && IsArticleUpdated(s, env, previous[id], lookup[id])
    ensures unmodified == common - updated
  {
    var verdict := map id | id in common :: IsArticleUpdated(s, env, previous[id], lookup[id]);
    updated, unmodified := SortByVerdict(verdict);
  }

  /** The loop of `detect_changes` over the common ids: each goes to
      `updated` or to `unmodified` as its verdict says. */
  method SortByVerdict(verdict: map<string, bool>) returns (updated: set<string>, unmodified: set<string>)
    ensures updated == set id | id in verdict && verdict[id]
    ensures unmodified == verdict.Keys - updated
  {
    updated, unmodified := {}, {};
    var todo := verdict.Keys;
    while todo != {}
      invariant todo <= verdict.Keys
      invariant updated <= verdict.Keys - todo && unmodified <= verdict.Keys - todo
      invariant forall id :: id in verdict.Keys - todo ==> (id in updated <==> verdict[id])
      invariant forall id :: id in verdict.Keys - todo ==> (id in unmodified <==> id !in updated)
      decreases |todo|
    {
      var id :| id in todo;
      if verdict[id] {
        updated := updated + {id};
      } else {
        unmodified := unmodified + {id};
      }
      todo := todo - {id};
    }
  }

  /** `detect_changes`: the four sets, the common ids sorted one at a time. */
  method DetectChanges(s: Settings, env: DateEnv, previous: map<string, SnapshotEntry>, current: seq<Article>)
    returns (c: Changes)
    ensures c == Classify(s, env, previous, current)
  {
    var lookup := Lookup(current);
    var previousIds := previous.Keys;
    var currentIds := lookup.Keys;
    var added := currentIds - previousIds;
    var removed := previousIds - currentIds;
    var common := currentIds * previousIds;
    var updated: set<string>, unmodified: set<string>;
    if s.forceFullUpdate {
      updated, unmodified := common, {};
    } else {
      updated, unmodified := SplitCommon(s, env, previous, lookup, common);
    }
    c := Changes(added, updated, unmodified, removed);
  }

  // ---------------------------------------------------------------------
  // Change summary

  /** One entry of `added_articles` / `updated_articles`. */
  datatype ArticleRef = ArticleRef(id: string, title: string, url: string)

  /** The integer part of `generate_change_summary`'s result. */
  datatype Summary = Summary(
    totalArticles: nat,
    addedCount: nat,
    updatedCount: nat,
    unchangedCount: nat,
    removedCount: nat,
    changePercentage: real,
    addedArticles: seq<ArticleRef>,
    updatedArticles: seq<ArticleRef>,
    removedArticles: seq<string>)

  /** The most entries listed per kind. */
  const MaxListed := 10

  /** The entry for one article, with the source's defaults. */
  function RefOf(id: string, a: Article): ArticleRef {
    ArticleRef(id, a.title.GetOr("Unknown"), a.url.GetOr(""))
  }

  predicate Distinct(xs: seq<string>) {
    forall i, j :: 0 <= i < j < |xs| ==> xs[i] != xs[j]
  }

  /** `list(ids)`: the set's elements once each, in some order. */
  method ListOf(ids: set<string>) returns (xs: seq<string>)
    ensures Distinct(xs)
    ensures forall x :: x in xs <==> x in ids
    ensures |xs| == |ids|
  {
    xs := [];
    var todo := ids;
    while todo != {}
      invariant todo <= ids
      invariant Distinct(xs)
      invariant forall x :: x in xs <==> x in ids - todo
      invariant |xs| + |todo| == |ids|
      decreases |todo|
    {
      var x :| x in todo;
      assert x !in xs;
      xs := xs + [x];
      todo := todo - {x};
    }
  }

  /** The first ten of `list(ids)` that are in the lookup, as entries. */
  method ListedRefs(ids: set<string>, lookup: map<string, Article>) returns (refs: seq<ArticleRef>)
    ensures |refs| <= MaxListed
    ensures forall k :: 0 <= k < |refs| ==> refs[k].id in ids && refs[k].id in lookup && refs[k] == RefOf(refs[k].id, lookup[refs[k].id])
    ensures forall i, j :: 0 <= i < j < |refs| ==> refs[i].id != refs[j].id
    ensures ids <= lookup.Keys ==> |refs| == if |ids| < MaxListed then |ids| else MaxListed
  {
    var all := ListOf(ids);
    var first := if |all| <= MaxListed then all else all[..MaxListed];
    assert Distinct(first);
    refs := [];
    ghost var pos: seq<nat> := [];
    var k := 0;
    while k < |first|
      invariant 0 <= k <= |first|
      invariant |pos| == |refs| <= k
      invariant forall i :: 0 <= i < |refs| ==> pos[i] < k && refs[i].id == first[pos[i]]
      invariant forall i, j :: 0 <= i < j < |refs| ==> pos[i] < pos[j]
      invariant forall i :: 0 <= i < |refs| ==> refs[i].id in lookup && refs[i] == RefOf(refs[i].id, lookup[refs[i].id])
      invariant ids <= lookup.Keys ==> |refs| == k
    {
      var id := first[k];
      if id in lookup {
        refs := refs + [RefOf(id, lookup[id])];
        pos := pos + [k];
      }
      k := k + 1;
    }
    forall i | 0 <= i < |refs| ensures refs[i].id in ids {
      assert first[pos[i]] in all;
    }
  }

  /** The share of changed articles in percent, left at 0.0 for an empty
      scrape. */
  function ChangePercentage(changed: nat, total: nat): (p: real)
    ensures total == 0 ==> p == 0.0
    ensures total > 0 ==> p * (total as real) == (changed * 100) as real
    ensures changed <= total ==> 0.0 <= p <= 100.0
  {
    if total == 0 then 0.0
    else
      var c, t := changed as real, total as real;
      assert (c / t) * t == c;
      (c / t) * 100.0
  }

  /** `generate_change_summary`. */
  method GenerateChangeSummary(changes: Changes, current: seq<Article>) returns (sum: Summary)
    ensures sum.totalArticles == |current|
    ensures sum.addedCount == |changes.added| && sum.updatedCount == |changes.updated|
    ensures sum.unchangedCount == |changes.unmodified| && sum.removedCount == |changes.removed|
    ensures |sum.addedArticles| <= MaxListed && |sum.updatedArticles| <= MaxListed
    // Each listed entry carries the title and url of the last article with its id.
    ensures forall k :: 0 <= k < |sum.addedArticles| ==>
      var id := sum.addedArticles[k].id;
      id in changes.added && id in Ids(current) && sum.addedArticles[k] == RefOf(id, Lookup(current)[id])
    ensures forall k :: 0 <= k < |sum.updatedArticles| ==>
      var id := sum.updatedArticles[k].id;
      id in changes.updated && id in Ids(current) && sum.updatedArticles[k] == RefOf(id, Lookup(current)[id])
    ensures forall i, j :: 0 <= i < j < |sum.addedArticles| ==> sum.addedArticles[i].id != sum.addedArticles[j].id
    ensures forall i, j :: 0 <= i < j < |sum.updatedArticles| ==> sum.updatedArticles[i].id != sum.updatedArticles[j].id
    ensures changes.added <= Ids(current) ==>
      |sum.addedArticles| == if |changes.added| < MaxListed then |changes.added| else MaxListed
    ensures changes.updated <= Ids(current) ==>
      |sum.updatedArticles| == if |changes.updated| < MaxListed then |changes.updated| else MaxListed
    ensures Distinct(sum.removedArticles) && |sum.removedArticles| == |changes.removed|
    ensures forall id :: id in sum.removedArticles <==> id in changes.removed
    ensures sum.changePercentage == ChangePercentage(|changes.added| + |changes.updated|, |current|)
  {
    var lookup := Lookup(current);
    var removedList := ListOf(changes.removed);
    var addedRefs := ListedRefs(changes.added, lookup);
    var updatedRefs := ListedRefs(changes.updated, lookup);
    var percentage := ChangePercentage(|changes.added| + |changes.updated|, |current|);
    sum := Summary(|current|, |changes.added|, |changes.updated|, |changes.unmodified|, |changes.removed|,
                   percentage, addedRefs, updatedRefs, removedList);
  }
}
