/** The article records that the scraper produces and the per-article
    entries of a saved snapshot, shared by the detector, the uploader and
    the job. */
module Articles {
  import opened Options

  /** One scraped article. Every key other than `id` may be missing from
      the source's dictionary; `None` stands for a missing key (or a
      `null` value, which every reader treats the same way). */
  datatype Article = Article(
    id: string,
    title: Option<string>,
    content: Option<string>,
    contentHash: Option<string>,
    url: Option<string>,
    lastModified: Option<string>,
    category: Option<string>,
    section: Option<string>,
    updatedAt: Option<string>)

  /** What the previous run remembered about one article. */
  datatype SnapshotEntry = SnapshotEntry(
    hash: Option<string>,
    lastModified: Option<string>,
    title: Option<string>,
    updatedAt: Option<string>)

  /** The set of ids of a list of articles. */
  function Ids(articles: seq<Article>): (ids: set<string>)
    ensures forall k :: 0 <= k < |articles| ==> articles[k].id in ids
  {
    set k | 0 <= k < |articles| :: articles[k].id
  }

  /** The position of the last article with the given id, -1 if none. */
  function LastIndexOf(articles: seq<Article>, id: string): (k: int)
    ensures -1 <= k < |articles|
    ensures k >= 0 ==> articles[k].id == id
    ensures forall j :: k < j < |articles| ==> articles[j].id != id
    decreases |articles|
  {
    if |articles| == 0 then -1
    else if articles[|articles| - 1].id == id then |articles| - 1
    else LastIndexOf(articles[..|articles| - 1], id)
  }

  /** The id lookup of `detect_changes`: built left to
      right, so a later article replaces an earlier one with the same id. */
  function Lookup(articles: seq<Article>): (m: map<string, Article>)
    ensures m.Keys == Ids(articles)
    decreases |articles|
  {
    if |articles| == 0 then map[]
    else
      var last := articles[|articles| - 1];
      var front := articles[..|articles| - 1];
      assert articles == front + [last];
      Lookup(front)[last.id := last]
  }

  /** The id lookup holds, for each id, the last article that carries it. */
  lemma {:induction false} LookupIsLast(articles: seq<Article>, id: string)
    requires id in Ids(articles)
    ensures LastIndexOf(articles, id) >= 0
    ensures Lookup(articles)[id] == articles[LastIndexOf(articles, id)]
    decreases |articles|
  {
    var last := articles[|articles| - 1];
    var front := articles[..|articles| - 1];
    if last.id != id {
      var k :| 0 <= k < |articles| && articles[k].id == id;
      assert k < |articles| - 1 && front[k].id == id;
      LookupIsLast(front, id);
    }
  }
}
