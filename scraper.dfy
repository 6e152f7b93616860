/** The pure helpers of the article scraper (daily-scraper-job/src/scraper.py):
    the whitespace cleaning whose output feeds the content hash, the
    article id derived from a URL path, and the breadcrumb rule that names
    an article's category and section. Fetching and HTML parsing are not
    modelled; their results arrive as parameters. */
module Scraper {
  import opened Options
  import opened PyStr

  // ---------------------------------------------------------------------
  // _clean_content

  /** Every line stripped. */
  function StripAll(lines: seq<string>): (r: seq<string>)
    ensures |r| == |lines|
    ensures forall k :: 0 <= k < |r| ==> r[k] == Strip(lines[k])
  {
    seq(|lines|, k requires 0 <= k < |lines| => Strip(lines[k]))
  }

  /** The non-empty lines. */
  function NonEmpty(lines: seq<string>): seq<string> {
    if lines == [] then []
    else if lines[0] == [] then NonEmpty(lines[1..])
    else [lines[0]] + NonEmpty(lines[1..])
  }

  /** The filter keeps exactly the non-empty lines ... */
  lemma {:induction false} NonEmptyMembers(lines: seq<string>, line: string)
    ensures line in NonEmpty(lines) <==> line in lines && line != []
  {
    if lines != [] {
      NonEmptyMembers(lines[1..], line);
      assert lines == [lines[0]] + lines[1..];
    }
  }

  /** ... in their original order: filtering a concatenation filters each
      part, and a list without empty lines is left as it is. */
  lemma {:induction false} NonEmptyAppend(xs: seq<string>, ys: seq<string>)
    ensures NonEmpty(xs + ys) == NonEmpty(xs) + NonEmpty(ys)
  {
    if xs == [] {
      assert xs + ys == ys;
    } else {
      assert (xs + ys)[1..] == xs[1..] + ys;
      NonEmptyAppend(xs[1..], ys);
    }
  }

  lemma {:induction false} NonEmptyOfNonEmpty(lines: seq<string>)
    requires forall k :: 0 <= k < |lines| ==> lines[k] != []
    ensures NonEmpty(lines) == lines
  {
    if lines != [] {
      NonEmptyOfNonEmpty(lines[1..]);
    }
  }

  /** The lines `_clean_content` keeps. */
  function CleanLines(content: string): seq<string> {
    NonEmpty(StripAll(Split(content, "\n")))
  }

  /** `_clean_content` */
  function CleanContent(content: string): string {
    Join(CleanLines(content), "\n")
  }

  /** A piece of a split on newlines holds no newline. */
  lemma NewlineFreePieces(s: string)
    ensures forall k :: 0 <= k < |Split(s, "\n")| ==> '\n' !in Split(s, "\n")[k]
  {
    var parts := Split(s, "\n");
    SplitPiecesFree(s, "\n");
    forall k | 0 <= k < |parts| ensures '\n' !in parts[k] {
      if '\n' in parts[k] {
        var j :| 0 <= j < |parts[k]| && parts[k][j] == '\n';
        assert OccursAt(parts[k], "\n", j);
      }
    }
  }

  /** The kept lines are non-empty, already stripped and free of newlines. */
  lemma {:induction false} CleanLinesShape(content: string)
    ensures forall k :: 0 <= k < |CleanLines(content)| ==>
      var line := CleanLines(content)[k];
      line != [] && Trimmed(line) && Strip(line) == line && '\n' !in line
  {
    forall k | 0 <= k < |CleanLines(content)|
      ensures var line := CleanLines(content)[k];
        line != [] && Trimmed(line) && Strip(line) == line && '\n' !in line
    {
      CleanLineShape(content, CleanLines(content)[k]);
    }
  }

  /** One kept line: the strip of a piece of the split, and not empty. */
  lemma CleanLineShape(content: string, line: string)
    requires line in CleanLines(content)
    ensures line != [] && Trimmed(line) && Strip(line) == line && '\n' !in line
  {
    var stripped := StripAll(Split(content, "\n"));
    NewlineFreePieces(content);
    NonEmptyMembers(stripped, line);
    var j :| 0 <= j < |stripped| && stripped[j] == line;
    StripSpec(Split(content, "\n")[j]);
    StripOfTrimmed(line);
    if '\n' in line {
      StripKeepsChars(Split(content, "\n")[j], '\n');
    }
  }

  /** The cleaned text is its kept lines, one per line: splitting it on
      newlines gives them back, so it has no empty line and every line
      equals its own strip. */
  lemma CleanContentLines(content: string)
    ensures CleanLines(content) == [] ==> CleanContent(content) == []
    ensures CleanLines(content) != [] ==> Split(CleanContent(content), "\n") == CleanLines(content)
    ensures forall k :: 0 <= k < |Split(CleanContent(content), "\n")| ==>
      var line := Split(CleanContent(content), "\n")[k];
      (line != [] || CleanLines(content) == []) && Strip(line) == line
  {
    var lines := CleanLines(content);
    CleanLinesShape(content);
    if lines != [] {
      SplitJoinChar(lines, '\n');
    } else {
      assert Split([], "\n") == [[]];
    }
  }

  /** Cleaning twice is cleaning once. */
  lemma CleanContentIdempotent(content: string)
    ensures CleanContent(CleanContent(content)) == CleanContent(content)
  {
    var lines := CleanLines(content);
    CleanLinesShape(content);
    if lines == [] {
      assert Split([], "\n") == [[]];
      assert StripAll([[]]) == [[]];
    } else {
      SplitJoinChar(lines, '\n');
      assert StripAll(lines) == lines;
      NonEmptyOfNonEmpty(lines);
    }
  }

  // ---------------------------------------------------------------------
  // _generate_article_id

  /** A path component that can name an article: non-empty and not the
      `articles` segment. */
  predicate Meaningful(part: string) {
    part != [] && part != "articles"
  }

  /** The index of the last meaningful component, searching from the end. */
  function LastMeaningful(parts: seq<string>): (r: Option<nat>)
    ensures r.Some? ==> r.value < |parts| && Meaningful(parts[r.value])
    ensures r.Some? ==> forall k :: r.value < k < |parts| ==> !Meaningful(parts[k])
    ensures r.None? ==> forall k :: 0 <= k < |parts| ==> !Meaningful(parts[k])
  {
    if parts == [] then None
    else if Meaningful(parts[|parts| - 1]) then Some(|parts| - 1)
    else LastMeaningful(parts[..|parts| - 1])
  }

  /** The id a component yields: digits verbatim, anything else with `-`
      replaced by `_`. */
  function IdFromPart(part: string): string {
    if IsDigits(part) then "article_" + part
    else "article_" + ReplaceAll(part, "-", "_")
  }

  /** The first eight characters of the URL's MD5 hex digest. */
  function HashPrefix(hexDigest: string): (r: string)
    ensures |r| == if |hexDigest| < 8 then |hexDigest| else 8
  {
    if |hexDigest| < 8 then hexDigest else hexDigest[..8]
  }

  /** `_generate_article_id`, given the path `urlparse` extracts and the MD5
      hex digest of the URL: decided by the last meaningful path component,
      the hash used only when there is none. */
  function ArticleId(path: string, hexDigest: string): (id: string)
    ensures StartsWith(id, "article_")
  {
    var parts := Split(path, "/");
    match LastMeaningful(parts)
    case Some(j) => IdFromPart(parts[j])
    case None => "article_" + HashPrefix(hexDigest)
  }

  /** The id after `article_` is the last meaningful component, with no `-`
      left in it; the hash appears only when no component is meaningful. */
  lemma ArticleIdSource(path: string, hexDigest: string)
    ensures var parts := Split(path, "/");
      var id := ArticleId(path, hexDigest);
      match LastMeaningful(parts)
      case Some(j) =>
        id[|"article_"|..] == ReplaceAll(parts[j], "-", "_") && '-' !in id[|"article_"|..]
      case None => id == "article_" + HashPrefix(hexDigest)
  {
    var parts := Split(path, "/");
    match LastMeaningful(parts)
    case Some(j) =>
      var part := parts[j];
      ReplaceAllRemovesChar(part, '-', "_");
      if IsDigits(part) {
        ReplaceAllFree(part, "-", "_");
      }
    case None =>
  }

  /** `_generate_article_id`: the loop over the components from the last
      one back. */
  method GenerateArticleId(path: string, hexDigest: string) returns (id: string)
    ensures id == ArticleId(path, hexDigest)
  {
    var parts := Split(path, "/");
    var i := |parts|;
    while i > 0
      invariant 0 <= i <= |parts|
      invariant LastMeaningful(parts) == LastMeaningful(parts[..i])
    {
      var part := parts[i - 1];
      assert parts[..i - 1] == parts[..i][..i - 1];
      assert parts[..i][i - 1] == part;
      if IsDigits(part) {
        assert Meaningful(part) by {
          assert IsDigitChar(part[0]) && !IsDigitChar("articles"[0]);
        }
        return "article_" + part;
      } else if part != [] && part != "articles" {
        return "article_" + ReplaceAll(part, "-", "_");
      }
      i := i - 1;
    }
    id := "article_" + HashPrefix(hexDigest);
  }

  // ---------------------------------------------------------------------
  // Breadcrumbs

  /** The category and section of `_extract_metadata`: the stripped
      second-to-last and last breadcrumb texts, each absent when there are
      too few breadcrumbs. */
  datatype Placement = Placement(category: Option<string>, section: Option<string>)

  function BreadcrumbPlacement(crumbs: seq<string>): (p: Placement)
    ensures p.section.Some? <==> |crumbs| >= 1
    ensures p.category.Some? <==> |crumbs| >= 2
    ensures |crumbs| >= 1 ==> p.section.value == Strip(crumbs[|crumbs| - 1])
    ensures |crumbs| >= 2 ==> p.category.value == Strip(crumbs[|crumbs| - 2])
  {
    var n := |crumbs|;
    Placement(
      if n >= 2 then Some(Strip(crumbs[n - 2])) else None,
      if n >= 1 then Some(Strip(crumbs[n - 1])) else None)
  }
}
