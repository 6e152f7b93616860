/** The header-based Markdown chunker: front matter, sections split on
    `## ` and, for oversized ones, `### ` headings, and the context header
    put in front of each chunk (optibot-assistant/utils/chunking.py). */
module Chunking {
  import opened Options
  import opened PyStr

  /** `MAX_CHUNK_SIZE` and `MIN_CHUNK_SIZE` (optibot-assistant/config.py). */
  const MaxChunkSize: nat := 8000
  const MinChunkSize: nat := 100

  /** Front-matter metadata: key to text. */
  type Metadata = map<string, string>

  const Opening := "---\n"
  const Closing := "\n---\n"

  // ---------------------------------------------------------------------
  // Front matter

  /** `pat` occurs in `s[d..]` at `i` exactly when it occurs in `s` at `i + d`. */
  lemma OccursAtShift(s: string, pat: string, d: nat, i: nat)
    requires d <= |s|
    ensures OccursAt(s[d..], pat, i) <==> OccursAt(s, pat, i + d)
  {
    if i + |pat| <= |s| - d {
      assert s[d..][i..i + |pat|] == s[i + d..i + d + |pat|];
    }
  }

  /** Where `^---\n(.*?)\n---\n` finds its closing fence: the first index
      from 4 on where `\n---\n` occurs, in a text that opens with `---\n`. */
  function ClosingAt(content: string): (r: Option<nat>)
    ensures r.Some? ==> StartsWith(content, Opening) && 4 <= r.value && OccursAt(content, Closing, r.value)
    ensures r.Some? ==> forall j :: 4 <= j < r.value ==> !OccursAt(content, Closing, j)
    ensures r.None? && StartsWith(content, Opening) ==> forall j :: 4 <= j ==> !OccursAt(content, Closing, j)
  {
    if !StartsWith(content, Opening) then None
    else
      var tail := content[4..];
      FindSpec(tail, Closing);
      match Find(tail, Closing)
      case None =>
        assert forall j :: 4 <= j ==> !OccursAt(content, Closing, j) by {
          forall j | 4 <= j ensures !OccursAt(content, Closing, j) {
            OccursAtShift(content, Closing, 4, j - 4);
          }
        }
        None
      case Some(i) =>
        OccursAtShift(content, Closing, 4, i);
        assert forall j :: 4 <= j < i + 4 ==> !OccursAt(content, Closing, j) by {
          forall j | 4 <= j < i + 4 ensures !OccursAt(content, Closing, j) {
            OccursAtShift(content, Closing, 4, j - 4);
          }
        }
        Some(i + 4)
  }

  /** A value of the manual parse: stripped, then `"` and `'` stripped. */
  function CleanValue(v: string): (r: string)
    ensures |r| <= |v|
    ensures r == [] || (r[0] != '\'' && r[|r| - 1] != '\'')
  {
    StripChar(StripChar(Strip(v), '"'), '\'')
  }

  /** A cleaned value is one piece of the stripped value, and only quote
      characters of either kind are dropped around it. */
  lemma CleanValueSpec(v: string)
    ensures exists a, b :: SliceDropping(Strip(v), CleanValue(v), a, b, {'"', '\''})
  {
    var t := Strip(v);
    var u := StripChar(t, '"');
    StripCharSpec(t, '"');
    StripCharSpec(u, '\'');
    var a1, b1 :| SliceDropping(t, u, a1, b1, {'"'});
    var a2, b2 :| SliceDropping(u, CleanValue(v), a2, b2, {'\''});
    SliceDroppingTwice(t, u, CleanValue(v), a1, b1, a2, b2, {'"'}, {'\''});
    assert {'"'} + {'\''} == {'"', '\''};
  }

  /** What one line gives to the manual parse: for a line with a colon,
      the stripped text before the first colon as key and the cleaned text
      after it as value; nothing for other lines. */
  function LineEntry(line: string): Option<(string, string)> {
    match Find(line, ":")
    case None => None
    case Some(i) => Some((Strip(line[..i]), CleanValue(line[i + 1..])))
  }

  /** The entries of all lines, in order. */
  function Entries(lines: seq<string>): (es: seq<Option<(string, string)>>)
    ensures |es| == |lines|
    ensures forall j :: 0 <= j < |lines| ==> es[j] == LineEntry(lines[j])
    decreases |lines|
  {
    if lines == [] then [] else [LineEntry(lines[0])] + Entries(lines[1..])
  }

  /** The fields the first `n` entries set, later entries overriding
      earlier ones. */
  function FieldsUpTo(entries: seq<Option<(string, string)>>, n: nat): (m: Metadata)
    requires n <= |entries|
    decreases n
  {
    if n == 0 then map[]
    else match entries[n - 1]
      case None => FieldsUpTo(entries, n - 1)
      case Some(kv) => FieldsUpTo(entries, n - 1)[kv.0 := kv.1]
  }

  /** `_parse_front_matter_manual`, as a specification. */
  function ManualFields(text: string): Metadata {
    var entries := Entries(Split(text, "\n"));
    FieldsUpTo(entries, |entries|)
  }

  /** A key is set exactly when some entry carries it. */
  lemma {:induction false} FieldKeys(entries: seq<Option<(string, string)>>, n: nat, key: string)
    requires n <= |entries|
    ensures key in FieldsUpTo(entries, n) <==> exists j :: 0 <= j < n && entries[j].Some? && entries[j].value.0 == key
  {
    if n > 0 {
      FieldKeys(entries, n - 1, key);
    }
  }

  /** The last entry carrying a key decides its value. */
  lemma {:induction false} LastEntryWins(entries: seq<Option<(string, string)>>, n: nat, j: nat)
    requires j < n <= |entries| && entries[j].Some?
    requires forall k :: j < k < n && entries[k].Some? ==> entries[k].value.0 != entries[j].value.0
    ensures entries[j].value.0 in FieldsUpTo(entries, n)
    ensures FieldsUpTo(entries, n)[entries[j].value.0] == entries[j].value.1
  {
    if j < n - 1 {
      LastEntryWins(entries, n - 1, j);
    }
  }

  /** Lines without a colon give nothing. */
  lemma NoColonNoFields(text: string)
    requires ':' !in text
    ensures ManualFields(text) == map[]
  {
    var lines := Split(text, "\n");
    var entries := Entries(lines);
    forall key ensures key !in ManualFields(text) {
      FieldKeys(entries, |entries|, key);
      forall j | 0 <= j < |lines| ensures entries[j].None? {
        SplitPieceChars(text, "\n", j);
        PatternAbsent(lines[j], ":");
        FindSpec(lines[j], ":");
      }
    }
  }

  /** `_parse_front_matter_manual`: the lines of the block, each read into
      its entry, then stored into the dict one at a time. */
  method ParseFrontMatterManual(text: string) returns (metadata: Metadata)
    ensures metadata == ManualFields(text)
  {
    metadata := CollectFields(Entries(Split(text, "\n")));
  }

  /** The loop of `_parse_front_matter_manual`: each entry stored in turn,
      so a later line with the same key overwrites an earlier one. */
  method CollectFields(entries: seq<Option<(string, string)>>) returns (metadata: Metadata)
    ensures metadata == FieldsUpTo(entries, |entries|)
  {
    metadata := map[];
    var n := 0;
    while n < |entries|
      invariant 0 <= n <= |entries|
      invariant metadata == FieldsUpTo(entries, n)
    {
      match entries[n] {
        case Some((key, value)) => metadata := metadata[key := value];
        case None =>
      }
      n := n + 1;
    }
  }

  /** `parse_front_matter`, with `yaml.safe_load` given as a parameter that
      answers `None` where it raises `YAMLError` (an empty document loads
      as the empty map, which `or {}` keeps). */
  function ParseFrontMatter(yaml: string -> Option<Metadata>, content: string): (r: (Metadata, string))
    ensures ClosingAt(content).None? ==> r == (map[], content)
    ensures ClosingAt(content).Some? ==>
      var k := ClosingAt(content).value;
      content == Opening + content[4..k] + Closing + r.1
      && r.0 == (if yaml(content[4..k]).Some? then yaml(content[4..k]).value else ManualFields(content[4..k]))
  {
    match ClosingAt(content)
    case None => (map[], content)
    case Some(k) =>
      var group := content[4..k];
      var rest := content[k + 5..];
      assert content == content[..4] + content[4..k] + content[k..k + 5] + content[k + 5..];
      var metadata := match yaml(group)
        case Some(m) => m
        case None => ManualFields(group);
      (metadata, rest)
  }

  /** Text that does not open with `---\n` has no front matter. */
  lemma NoOpeningNoFrontMatter(yaml: string -> Option<Metadata>, content: string)
    requires !StartsWith(content, Opening)
    ensures ParseFrontMatter(yaml, content) == (map[], content)
  {
  }

  /** A one-line block is read back with the body after it, whatever the
      body holds (further fences included). */
  lemma OneLineFrontMatter(yaml: string -> Option<Metadata>, group: string, body: string)
    requires '\n' !in group
    ensures var r := ParseFrontMatter(yaml, Opening + group + Closing + body);
      r.1 == body && r.0 == (if yaml(group).Some? then yaml(group).value else ManualFields(group))
  {
    var content := Opening + group + Closing + body;
    var k := 4 + |group|;
    assert content[..4] == Opening;
    assert content[k..k + 5] == Closing;
    forall j | 4 <= j < k ensures !OccursAt(content, Closing, j) {
      assert content[j] == group[j - 4];
    }
    var tail := content[4..];
    OccursAtShift(content, Closing, 4, |group|);
    assert Contains(tail, Closing);
    FindSpec(tail, Closing);
    var i := Find(tail, Closing).value;
    OccursAtShift(content, Closing, 4, i);
    assert i == |group|;
    assert ClosingAt(content) == Some(k);
    assert content[4..k] == group;
    assert content[k + 5..] == body;
  }

  // ---------------------------------------------------------------------
  // Sections

  /** A section of an article: its title, its text and its heading level
      (1 for the introduction, 2 for `##`, 3 for `###`). */
  datatype Section = Section(title: string, content: string, level: nat)

  const IntroductionTitle := "Introduction"
  const MainHeading := "\n## "
  const SubHeading := "\n### "

  /** The heading of a split piece: its first line, stripped. */
  function HeadingTitle(piece: string): string {
    Strip(Split(piece, "\n")[0])
  }

  /** The body of a split piece: the lines after the first, joined back
      and stripped. */
  function SectionBody(piece: string): string {
    Strip(Join(Split(piece, "\n")[1..], "\n"))
  }

  /** The text of a `##` section as it is emitted. */
  function MainContent(title: string, body: string): string {
    "## " + title + "\n\n" + body
  }

  /** What every emitted section looks like: the introduction is titled
      `Introduction` and has at least `MIN_CHUNK_SIZE` characters; a level-2
      section opens with its own `##` heading; a level-3 section opens with
      a `##` heading and has at least `MIN_CHUNK_SIZE` characters. */
  predicate WellFormed(sec: Section) {
    match sec.level
    case 1 => sec.title == IntroductionTitle && |sec.content| >= MinChunkSize
    case 2 => StartsWith(sec.content, "## " + sec.title + "\n\n")
    case 3 => StartsWith(sec.content, "## ") && |sec.content| >= MinChunkSize
    case _ => false
  }

  /** The text of a `###` section of an oversized `##` section. */
  function SubContent(main: string, title: string, body: string): string {
    "## " + main + "\n\n### " + title + "\n\n" + body
  }

  /** The text before the first `##` heading, as an introduction section
      when it is long enough. */
  function IntroSections(lead: string): (r: seq<Section>)
    ensures |r| <= 1
  {
    var t := Strip(lead);
    if |t| > 0 && |t| >= MinChunkSize then [Section(IntroductionTitle, t, 1)] else []
  }

  /** The part of an oversized section before its first `###` heading, kept
      at level 2 when it is long enough. */
  function LeadSections(main: string, lead: string): (r: seq<Section>)
    ensures |r| <= 1
  {
    var t := Strip(lead);
    if |t| > 0 && |t| >= MinChunkSize then [Section(main, MainContent(main, t), 2)] else []
  }

  /** One `###` piece of an oversized section: kept only when its body is
      long enough, titled after both headings. */
  function SubSections(main: string, piece: string): (r: seq<Section>)
    ensures |r| <= 1
  {
    if IsBlank(piece) then [] else SubSection(main, HeadingTitle(piece), SectionBody(piece))
  }

  /** The section a non-blank `###` piece with this heading and body gives. */
  function SubSection(main: string, title: string, body: string): (r: seq<Section>)
    ensures |r| <= 1
  {
    if |body| >= MinChunkSize then [Section(main + " - " + title, SubContent(main, title, body), 3)]
    else []
  }

  /** The sections of the `###` pieces `1..n`, in order. */
  function SubSectionsUpTo(main: string, parts: seq<string>, n: nat): seq<Section>
    requires n <= |parts|
    decreases n
  {
    if n <= 1 then [] else SubSectionsUpTo(main, parts, n - 1) + SubSections(main, parts[n - 1])
  }

  /** `_split_large_section`, as a specification. */
  function LargeSections(main: string, content: string): seq<Section> {
    var parts := Split(content, SubHeading);
    LeadSections(main, parts[0]) + SubSectionsUpTo(main, parts, |parts|)
  }

  /** One `##` piece: nothing when blank, split further when its body is
      over `MAX_CHUNK_SIZE`, otherwise one level-2 section whatever its
      length. */
  function MainSections(piece: string): seq<Section> {
    if IsBlank(piece) then []
    else
      var title, body := HeadingTitle(piece), SectionBody(piece);
      if |body| > MaxChunkSize then LargeSections(title, body)
      else [Section(title, MainContent(title, body), 2)]
  }

  /** The sections of the `##` pieces `1..n`, in order. */
  function MainSectionsUpTo(parts: seq<string>, n: nat): seq<Section>
    requires n <= |parts|
    decreases n
  {
    if n <= 1 then [] else MainSectionsUpTo(parts, n - 1) + MainSections(parts[n - 1])
  }

  lemma MainSectionsStep(parts: seq<string>, i: nat, mains: seq<Section>, more: seq<Section>)
    requires 1 <= i < |parts|
    requires mains == MainSectionsUpTo(parts, i) && more == MainSections(parts[i])
    ensures mains + more == MainSectionsUpTo(parts, i + 1)
  {
  }

  /** `split_by_headers`, as a specification. */
  function HeaderSections(content: string): seq<Section> {
    var parts := Split(content, MainHeading);
    IntroSections(parts[0]) + MainSectionsUpTo(parts, |parts|)
  }

  /** All sections of a list are well formed, at a level in `lo..hi`. */
  predicate AllWellFormed(r: seq<Section>, lo: nat, hi: nat) {
    forall k :: 0 <= k < |r| ==> WellFormed(r[k]) && lo <= r[k].level <= hi
  }

  lemma AllWellFormedAppend(a: seq<Section>, b: seq<Section>, lo: nat, hi: nat)
    requires AllWellFormed(a, lo, hi) && AllWellFormed(b, lo, hi)
    ensures AllWellFormed(a + b, lo, hi)
  {
    forall k | 0 <= k < |a + b| ensures WellFormed((a + b)[k]) && lo <= (a + b)[k].level <= hi {
      if k >= |a| {
        assert (a + b)[k] == b[k - |a|];
      }
    }
  }

  /** The introduction is kept exactly when its stripped text reaches
      `MIN_CHUNK_SIZE`, and is then well formed. */
  lemma IntroShape(lead: string)
    ensures |IntroSections(lead)| == 1 <==> |Strip(lead)| >= MinChunkSize
    ensures AllWellFormed(IntroSections(lead), 1, 1)
  {
  }

  /** The lead of an oversized section is kept exactly when its stripped
      text reaches `MIN_CHUNK_SIZE`, as a level-2 section under the main
      title. */
  lemma LeadShape(main: string, lead: string)
    ensures |LeadSections(main, lead)| == 1 <==> |Strip(lead)| >= MinChunkSize
    ensures AllWellFormed(LeadSections(main, lead), 2, 2)
  {
    var t := Strip(lead);
    if |t| >= MinChunkSize {
      assert MainContent(main, t) == ("## " + main + "\n\n") + t;
    }
  }

  /** A `###` piece is kept exactly when it is not blank and its body
      reaches `MIN_CHUNK_SIZE`, as a level-3 section titled `T - S`. */
  lemma SubShape(main: string, piece: string)
    ensures |SubSections(main, piece)| == 1 <==> !IsBlank(piece) && |SectionBody(piece)| >= MinChunkSize
    ensures AllWellFormed(SubSections(main, piece), 3, 3)
    ensures forall k :: 0 <= k < |SubSections(main, piece)| ==>
      SubSections(main, piece)[k].title == main + " - " + HeadingTitle(piece)
  {
    if !IsBlank(piece) {
      SubSectionShape(main, HeadingTitle(piece), SectionBody(piece));
    }
  }

  lemma SubSectionShape(main: string, title: string, body: string)
    ensures |SubSection(main, title, body)| == 1 <==> |body| >= MinChunkSize
    ensures AllWellFormed(SubSection(main, title, body), 3, 3)
    ensures forall k :: 0 <= k < |SubSection(main, title, body)| ==>
      SubSection(main, title, body)[k].title == main + " - " + title
  {
    if |body| >= MinChunkSize {
      var c := SubContent(main, title, body);
      assert c == "## " + (main + "\n\n### " + title + "\n\n" + body);
      assert WellFormed(Section(main + " - " + title, c, 3));
    }
  }

  lemma {:induction false} SubSectionsShape(main: string, parts: seq<string>, n: nat)
    requires n <= |parts|
    ensures AllWellFormed(SubSectionsUpTo(main, parts, n), 3, 3)
    decreases n
  {
    if n > 1 {
      SubSectionsShape(main, parts, n - 1);
      SubShape(main, parts[n - 1]);
      AllWellFormedAppend(SubSectionsUpTo(main, parts, n - 1), SubSections(main, parts[n - 1]), 3, 3);
    }
  }

  /** An oversized section yields well-formed sections at levels 2 and 3
      only. */
  lemma LargeShape(main: string, content: string)
    ensures AllWellFormed(LargeSections(main, content), 2, 3)
  {
    var parts := Split(content, SubHeading);
    LeadShape(main, parts[0]);
    SubSectionsShape(main, parts, |parts|);
    AllWellFormedAppend(LeadSections(main, parts[0]), SubSectionsUpTo(main, parts, |parts|), 2, 3);
  }

  /** A `##` piece yields well-formed sections at levels 2 and 3; a blank
      one yields none, and one whose body is within `MAX_CHUNK_SIZE` yields
      exactly one level-2 section under its heading, however short. */
  lemma MainShape(piece: string)
    ensures AllWellFormed(MainSections(piece), 2, 3)
    ensures IsBlank(piece) ==> MainSections(piece) == []
    ensures !IsBlank(piece) && |SectionBody(piece)| <= MaxChunkSize ==>
      |MainSections(piece)| == 1 && MainSections(piece)[0].level == 2
      && MainSections(piece)[0].title == HeadingTitle(piece)
  {
    if !IsBlank(piece) {
      var title, body := HeadingTitle(piece), SectionBody(piece);
      if |body| > MaxChunkSize {
        LargeShape(title, body);
      } else {
        assert MainContent(title, body) == ("## " + title + "\n\n") + body;
      }
    }
  }

  lemma {:induction false} MainSectionsShape(parts: seq<string>, n: nat)
    requires n <= |parts|
    ensures AllWellFormed(MainSectionsUpTo(parts, n), 2, 3)
    decreases n
  {
    if n > 1 {
      MainSectionsShape(parts, n - 1);
      MainShape(parts[n - 1]);
      AllWellFormedAppend(MainSectionsUpTo(parts, n - 1), MainSections(parts[n - 1]), 2, 3);
    }
  }

  /** Every section is well formed, and only the first can be the
      introduction. */
  lemma HeaderSectionsWellFormed(content: string)
    ensures AllWellFormed(HeaderSections(content), 1, 3)
    ensures forall k :: 0 < k < |HeaderSections(content)| ==> HeaderSections(content)[k].level != 1
  {
    var parts := Split(content, MainHeading);
    var intro, rest := IntroSections(parts[0]), MainSectionsUpTo(parts, |parts|);
    IntroShape(parts[0]);
    MainSectionsShape(parts, |parts|);
    var r := intro + rest;
    assert r == HeaderSections(content);
    forall k | 0 <= k < |r| ensures WellFormed(r[k]) && 1 <= r[k].level <= 3 && (k > 0 ==> r[k].level != 1) {
      if k >= |intro| {
        assert r[k] == rest[k - |intro|];
      }
    }
  }

  /** Text without a `##` heading yields at most the introduction. */
  lemma NoHeadingsIntroOnly(content: string)
    requires !Contains(content, MainHeading)
    ensures HeaderSections(content) == IntroSections(content)
  {
    FindSpec(content, MainHeading);
    assert Split(content, MainHeading) == [content];
  }

  /** `_split_large_section`: the lead, then the `###` pieces one at a
      time. */
  method SplitLargeSection(main: string, content: string) returns (subsections: seq<Section>)
    ensures subsections == LargeSections(main, content)
  {
    var parts := Split(content, SubHeading);
    var subs := SplitSubPieces(main, parts);
    subsections := LeadSections(main, parts[0]) + subs;
  }

  /** The loop of `_split_large_section` over the `###` pieces after the
      lead. */
  method SplitSubPieces(main: string, parts: seq<string>) returns (subs: seq<Section>)
    requires |parts| >= 1
    ensures subs == SubSectionsUpTo(main, parts, |parts|)
  {
    subs := [];
    for j := 1 to |parts|
      invariant subs == SubSectionsUpTo(main, parts, j)
    {
      var more := SplitSubPiece(main, parts[j]);
      SubSectionsStep(main, parts, j, subs, more);
      subs := subs + more;
    }
  }

  /** The body of the loop of `_split_large_section`: one `###` piece. */
  method SplitSubPiece(main: string, piece: string) returns (more: seq<Section>)
    ensures more == SubSections(main, piece)
  {
    more := [];
    if !IsBlank(piece) {
      var title, body := HeadingTitle(piece), SectionBody(piece);
      if |body| >= MinChunkSize {
        more := [Section(main + " - " + title, SubContent(main, title, body), 3)];
      }
    }
  }

  lemma SubSectionsStep(main: string, parts: seq<string>, j: nat, subs: seq<Section>, more: seq<Section>)
    requires 1 <= j < |parts|
    requires subs == SubSectionsUpTo(main, parts, j) && more == SubSections(main, parts[j])
    ensures subs + more == SubSectionsUpTo(main, parts, j + 1)
  {
  }

  /** The body of the loop of `split_by_headers`: one `##` piece. */
  method SplitPiece(piece: string) returns (sections: seq<Section>)
    ensures sections == MainSections(piece)
  {
    sections := [];
    if !IsBlank(piece) {
      var title, body := HeadingTitle(piece), SectionBody(piece);
      if |body| > MaxChunkSize {
        sections := SplitLargeSection(title, body);
      } else {
        sections := [Section(title, MainContent(title, body), 2)];
      }
    }
  }

  /** `split_by_headers`: the introduction, then the `##` pieces one at a
      time. */
  method SplitByHeaders(content: string) returns (sections: seq<Section>)
    ensures sections == HeaderSections(content)
  {
    var parts := Split(content, MainHeading);
    var mains := SplitMainPieces(parts);
    sections := IntroSections(parts[0]) + mains;
  }

  /** The loop of `split_by_headers` over the `##` pieces after the
      introduction. */
  method SplitMainPieces(parts: seq<string>) returns (mains: seq<Section>)
    requires |parts| >= 1
    ensures mains == MainSectionsUpTo(parts, |parts|)
  {
    mains := [];
    for i := 1 to |parts|
      invariant mains == MainSectionsUpTo(parts, i)
    {
      var more := SplitPiece(parts[i]);
      MainSectionsStep(parts, i, mains, more);
      mains := mains + more;
    }
  }

  // ---------------------------------------------------------------------
  // Chunks

  /** `metadata.get(key, default)` */
  function MetaGet(meta: Metadata, key: string, default: string): string {
    if key in meta then meta[key] else default
  }

  /** The nine lines of the context header of `create_chunk_with_context`. */
  function ContextLines(meta: Metadata, sectionTitle: string): seq<string> {
    [ "Article: " + MetaGet(meta, "title", "Unknown Title"),
      "Category: " + MetaGet(meta, "category", "Unknown"),
      "Section: " + MetaGet(meta, "section", "Unknown"),
      "Article URL: " + MetaGet(meta, "url", "Unknown"),
      "Content Section: " + sectionTitle,
      "Last Updated: " + MetaGet(meta, "updated_at", "Unknown"),
      "",
      "---",
      "" ]
  }

  /** `create_chunk_with_context`: the header lines joined by newlines,
      then the section text. */
  function ChunkWithContext(sec: Section, meta: Metadata): string {
    Join(ContextLines(meta, sec.title), "\n") + sec.content
  }

  /** The chunk is the six labelled header lines, a blank line, the `---`
      rule and a newline, then the section text verbatim. */
  lemma ChunkWithContextShape(sec: Section, meta: Metadata)
    ensures ChunkWithContext(sec, meta) ==
      Join(ContextLines(meta, sec.title)[..6], "\n") + "\n\n---\n" + sec.content
  {
    var ls := ContextLines(meta, sec.title);
    assert ls == ls[..6] + ["", "---", ""];
    JoinRule(ls[..6]);
  }

  /** Joining lines followed by a blank line, `---` and a blank line. */
  lemma JoinRule(head: seq<string>)
    requires |head| >= 1
    ensures Join(head + ["", "---", ""], "\n") == Join(head, "\n") + "\n\n---\n"
  {
    var tail := ["", "---", ""];
    JoinAppend(head, tail, "\n");
    RuleLines();
    AppendRule(Join(head, "\n"));
  }

  lemma AppendRule(j: string)
    ensures j + "\n" + "\n---\n" == j + "\n\n---\n"
  {
    assert "\n" + "\n---\n" == "\n\n---\n";
  }

  /** The three closing lines of the header join to `\n---\n`. */
  lemma RuleLines()
    ensures Join(["", "---", ""], "\n") == "\n---\n"
  {
    assert ["", "---", ""] == [""] + (["---"] + [""]);
    JoinCons("", ["---"] + [""], "\n");
    JoinCons("---", [""], "\n");
  }

  /** With no newline in the metadata values and the section title, the
      header splits back into exactly its nine lines. */
  lemma ContextHeaderLines(meta: Metadata, sectionTitle: string)
    requires forall key :: key in meta ==> '\n' !in meta[key]
    requires '\n' !in sectionTitle
    ensures Split(Join(ContextLines(meta, sectionTitle), "\n"), "\n") == ContextLines(meta, sectionTitle)
  {
    ContextLinesFree(meta, sectionTitle);
    SplitJoinChar(ContextLines(meta, sectionTitle), '\n');
  }

  /** No header line contains a newline when no value does. */
  lemma ContextLinesFree(meta: Metadata, sectionTitle: string)
    requires forall key :: key in meta ==> '\n' !in meta[key]
    requires '\n' !in sectionTitle
    ensures forall k :: 0 <= k < |ContextLines(meta, sectionTitle)| ==> '\n' !in ContextLines(meta, sectionTitle)[k]
  {
    MetaGetFree(meta, "title", "Unknown Title");
    MetaGetFree(meta, "category", "Unknown");
    MetaGetFree(meta, "section", "Unknown");
    MetaGetFree(meta, "url", "Unknown");
    MetaGetFree(meta, "updated_at", "Unknown");
    var ls := ContextLines(meta, sectionTitle);
    forall k | 0 <= k < |ls| ensures '\n' !in ls[k] {
      if k < 5 {
        assert k == 0 || k == 1 || k == 2 || k == 3 || k == 4;
      } else {
        assert k == 5 || k == 6 || k == 7 || k == 8;
      }
    }
  }

  lemma MetaGetFree(meta: Metadata, key: string, default: string)
    requires forall key :: key in meta ==> '\n' !in meta[key]
    requires '\n' !in default
    ensures '\n' !in MetaGet(meta, key, default)
  {
  }

  /** `Path(file_path).name`: the text after the last `/`. */
  function BaseName(path: string): string {
    var i := RFind(path, '/', 0, |path|);
    path[i + 1..]
  }

  /** `Path(file_path).stem`: the name without its last suffix, where a
      suffix needs a `.` that neither opens nor closes the name. */
  function Stem(path: string): string {
    var name := BaseName(path);
    var d := RFind(name, '.', 0, |name|);
    if 0 < d < |name| - 1 then name[..d] else name
  }

  /** The name of the `i`-th chunk: the stem, `_chunk_`, the number from 1
      and `.md`. */
  function ChunkFilename(path: string, i: nat): string {
    Stem(path) + "_chunk_" + NatToString(i + 1) + ".md"
  }

  /** Chunks of one file get pairwise different names. */
  lemma ChunkFilenamesDistinct(path: string, i: nat, j: nat)
    ensures ChunkFilename(path, i) == ChunkFilename(path, j) ==> i == j
  {
    var prefix := Stem(path) + "_chunk_";
    var di, dj := NatToString(i + 1), NatToString(j + 1);
    var a, b := ChunkFilename(path, i), ChunkFilename(path, j);
    if a == b {
      assert a == prefix + di + ".md";
      assert b == prefix + dj + ".md";
      assert |di| == |dj|;
      assert di == a[|prefix|..|prefix| + |di|];
      assert dj == b[|prefix|..|prefix| + |dj|];
      NatToStringValue(i + 1);
      NatToStringValue(j + 1);
    }
  }

  /** One chunk as `chunk_file` records it. */
  datatype Chunk = Chunk(
    filename: string,
    content: string,
    sectionTitle: string,
    sectionLevel: nat,
    characterCount: nat,
    metadata: Metadata)

  /** The chunk made of the `i`-th section. */
  function MakeChunk(path: string, i: nat, sec: Section, meta: Metadata): Chunk {
    var content := ChunkWithContext(sec, meta);
    Chunk(ChunkFilename(path, i), content, sec.title, sec.level, |content|, meta)
  }

  /** One chunk per section, in section order. */
  function ChunksOf(path: string, sections: seq<Section>, meta: Metadata): (r: seq<Chunk>)
    ensures |r| == |sections|
    ensures forall i :: 0 <= i < |r| ==> r[i] == MakeChunk(path, i, sections[i], meta)
  {
    seq(|sections|, i requires 0 <= i < |sections| => MakeChunk(path, i, sections[i], meta))
  }

  /** `chunk_file`, as a specification: front matter off, sections split,
      one chunk per section. */
  function FileChunks(yaml: string -> Option<Metadata>, path: string, content: string): seq<Chunk> {
    var (meta, body) := ParseFrontMatter(yaml, content);
    ChunksOf(path, HeaderSections(body), meta)
  }

  /** The chunks of a file follow its sections: same order, same titles and
      levels, the section text at the end of each chunk, the counted length
      the real one, and names that differ. */
  lemma FileChunksFollowSections(yaml: string -> Option<Metadata>, path: string, content: string)
    ensures var (meta, body) := ParseFrontMatter(yaml, content);
      var sections, chunks := HeaderSections(body), FileChunks(yaml, path, content);
      |chunks| == |sections|
      && forall i :: 0 <= i < |chunks| ==>
        chunks[i].sectionTitle == sections[i].title
        && chunks[i].sectionLevel == sections[i].level
        && EndsWith(chunks[i].content, sections[i].content)
        && chunks[i].characterCount == |chunks[i].content|
        && chunks[i].metadata == meta
        && (forall j :: 0 <= j < |chunks| && j != i ==> chunks[j].filename != chunks[i].filename)
  {
    var (meta, body) := ParseFrontMatter(yaml, content);
    var sections, chunks := HeaderSections(body), FileChunks(yaml, path, content);
    forall i | 0 <= i < |chunks|
      ensures EndsWith(chunks[i].content, sections[i].content)
      ensures forall j :: 0 <= j < |chunks| && j != i ==> chunks[j].filename != chunks[i].filename
    {
      var header := Join(ContextLines(meta, sections[i].title), "\n");
      assert chunks[i].content == header + sections[i].content;
      forall j | 0 <= j < |chunks| && j != i ensures chunks[j].filename != chunks[i].filename {
        ChunkFilenamesDistinct(path, i, j);
      }
    }
  }

  /** The sum of `character_count` over a list of chunks. */
  function CharacterSum(chunks: seq<Chunk>): nat {
    if chunks == [] then 0 else CharacterSum(chunks[..|chunks| - 1]) + chunks[|chunks| - 1].characterCount
  }

  /** The statistics `get_stats` reports, the average as an exact ratio. */
  datatype Stats = Stats(totalFiles: nat, totalChunks: nat, totalCharacters: nat, avgChunkSize: real)

  /** The loop of `chunk_file`: a chunk per section, numbered from 1. */
  method MakeChunks(path: string, sections: seq<Section>, metadata: Metadata) returns (chunks: seq<Chunk>)
    ensures chunks == ChunksOf(path, sections, metadata)
  {
    chunks := [];
    var i := 0;
    while i < |sections|
      invariant 0 <= i <= |sections|
      invariant chunks == ChunksOf(path, sections, metadata)[..i]
    {
      var chunk := NewChunk(path, i, sections[i], metadata);
      ChunksOfStep(path, sections, metadata, i);
      chunks := chunks + [chunk];
      i := i + 1;
    }
    assert ChunksOf(path, sections, metadata)[..i] == ChunksOf(path, sections, metadata);
  }

  lemma ChunksOfStep(path: string, sections: seq<Section>, meta: Metadata, i: nat)
    requires i < |sections|
    ensures ChunksOf(path, sections, meta)[..i + 1] ==
      ChunksOf(path, sections, meta)[..i] + [MakeChunk(path, i, sections[i], meta)]
  {
    var r := ChunksOf(path, sections, meta);
    assert r[..i + 1] == r[..i] + [r[i]];
  }

  /** The body of the loop of `chunk_file`: the section with its context
      header, named after the file and the index. */
  method NewChunk(path: string, i: nat, sec: Section, metadata: Metadata) returns (chunk: Chunk)
    ensures chunk == MakeChunk(path, i, sec, metadata)
  {
    var chunkContent := ChunkWithContext(sec, metadata);
    chunk := Chunk(ChunkFilename(path, i), chunkContent, sec.title, sec.level, |chunkContent|, metadata);
  }

  /** `MarkdownChunker`: the chunking steps and the running totals. */
  class MarkdownChunker {
    var totalFiles: nat
    var totalChunks: nat
    var totalCharacters: nat

    constructor()
      ensures totalFiles == 0 && totalChunks == 0 && totalCharacters == 0
    {
      totalFiles, totalChunks, totalCharacters := 0, 0, 0;
    }

    /** `chunk_file`: one chunk per section, then the totals grow by one
        file, the number of chunks and their characters. */
    method ChunkFile(yaml: string -> Option<Metadata>, path: string, content: string) returns (chunks: seq<Chunk>)
      modifies this
      ensures chunks == FileChunks(yaml, path, content)
      ensures totalFiles == old(totalFiles) + 1
      ensures totalChunks == old(totalChunks) + |chunks|
      ensures totalCharacters == old(totalCharacters) + CharacterSum(chunks)
    {
      var (metadata, body) := ParseFrontMatter(yaml, content);
      var sections := SplitByHeaders(body);
      chunks := MakeChunks(path, sections, metadata);
      totalFiles := totalFiles + 1;
      totalChunks := totalChunks + |chunks|;
      totalCharacters := totalCharacters + CharacterSum(chunks);
    }

    /** `get_stats`: the totals, with the average size only once a chunk
        exists. */
    function GetStats(): (s: Stats)
      reads this
      ensures s.totalFiles == totalFiles && s.totalChunks == totalChunks && s.totalCharacters == totalCharacters
      ensures totalChunks == 0 ==> s.avgChunkSize == 0.0
      ensures totalChunks > 0 ==> s.avgChunkSize * (totalChunks as real) == totalCharacters as real
    {
      var avg := if totalChunks > 0 then (totalCharacters as real) / (totalChunks as real) else 0.0;
      Stats(totalFiles, totalChunks, totalCharacters, avg)
    }
  }
}
