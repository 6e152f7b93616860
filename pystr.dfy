/** The Python `str` built-ins the scraper job and the chunker rely on (`strip`, `split`,
    `join`, `replace`, `find`, `rfind`, slicing, `isdigit`, `int`, `str`),
    written out over `seq<char>` with the properties the rest of the model
    uses. */
module PyStr {
  import opened Options

  // ---------------------------------------------------------------------
  // Whitespace and strip

  /** The characters Python's `str.strip()` removes (`str.isspace()`). */
  predicate IsSpace(c: char) {
    c == ' ' || c == '\t' || c == '\n' || c == '\r' || c == '\U{b}' || c == '\U{c}'
    || ('\U{1c}' <= c <= '\U{1f}') || c == '\U{85}' || c == '\U{a0}' || c == '\U{1680}'
    || ('\U{2000}' <= c <= '\U{200a}') || c == '\U{2028}' || c == '\U{2029}'
    || c == '\U{202f}' || c == '\U{205f}' || c == '\U{3000}'
  }

  /** Neither end of `s` is whitespace: what `strip()` guarantees. */
  predicate Trimmed(s: string) {
    |s| == 0 || (!IsSpace(s[0]) && !IsSpace(s[|s| - 1]))
  }

  /** How many whitespace characters open `s`. */
  function LeadingSpaces(s: string): (n: nat)
    ensures n <= |s|
    ensures forall k :: 0 <= k < n ==> IsSpace(s[k])
    ensures n < |s| ==> !IsSpace(s[n])
    decreases |s|
  {
    if |s| > 0 && IsSpace(s[0]) then 1 + LeadingSpaces(s[1..]) else 0
  }

  /** How many whitespace characters close `s`. */
  function TrailingSpaces(s: string): (n: nat)
    ensures n <= |s|
    ensures forall k :: |s| - n <= k < |s| ==> IsSpace(s[k])
    ensures n < |s| ==> !IsSpace(s[|s| - n - 1])
    decreases |s|
  {
    if |s| > 0 && IsSpace(s[|s| - 1]) then 1 + TrailingSpaces(s[..|s| - 1]) else 0
  }

  /** `s.lstrip()` */
  function LStrip(s: string): string {
    s[LeadingSpaces(s)..]
  }

  /** `s.rstrip()` */
  function RStrip(s: string): string {
    s[..|s| - TrailingSpaces(s)]
  }

  /** `s.strip()`: the slice of `s` left once whitespace is removed from
      both ends. */
  function Strip(s: string): (r: string)
    ensures |r| <= |s|
  {
    RStrip(LStrip(s))
  }

  /** `strip()` leaves a trimmed slice of `s` that starts at its first
      non-space character and is followed by whitespace only. */
  lemma StripSpec(s: string)
    ensures Trimmed(Strip(s))
    ensures LeadingSpaces(s) + |Strip(s)| <= |s|
    ensures Strip(s) == s[LeadingSpaces(s)..LeadingSpaces(s) + |Strip(s)|]
    ensures forall k :: LeadingSpaces(s) + |Strip(s)| <= k < |s| ==> IsSpace(s[k])
  {
    var a, l, r := LeadingSpaces(s), LStrip(s), Strip(s);
    StripParts(s, a, l, r);
    StripShape(s, a, l, r);
  }

  /** The pieces of the definition of `Strip`, named. */
  lemma StripParts(s: string, a: nat, l: string, r: string)
    requires a == LeadingSpaces(s) && l == LStrip(s) && r == Strip(s)
    ensures a <= |s| && (a < |s| ==> !IsSpace(s[a]))
    ensures l == s[a..] && r == l[..|l| - TrailingSpaces(l)]
  {
  }

  /** The facts `Strip` promises, about the slice it takes. */
  lemma StripShape(s: string, a: nat, l: string, r: string)
    requires a <= |s| && (a < |s| ==> !IsSpace(s[a]))
    requires l == s[a..] && r == l[..|l| - TrailingSpaces(l)]
    ensures Trimmed(r)
    ensures a + |r| <= |s| && r == s[a..a + |r|]
    ensures forall k :: a + |r| <= k < |s| ==> IsSpace(s[k])
  {
    SliceOfSuffix(s, a, |r|);
    StripEnds(s, a, l, r);
    StripTail(s, a, l);
  }

  lemma SliceOfSuffix(s: string, a: nat, m: nat)
    requires a + m <= |s|
    ensures s[a..][..m] == s[a..a + m]
  {
  }

  lemma StripEnds(s: string, a: nat, l: string, r: string)
    requires a <= |s| && (a < |s| ==> !IsSpace(s[a]))
    requires l == s[a..] && r == l[..|l| - TrailingSpaces(l)]
    ensures Trimmed(r)
  {
    if |r| > 0 {
      var t := TrailingSpaces(l);
      assert r[0] == l[0] == s[a];
      assert r[|r| - 1] == l[|l| - t - 1];
    }
  }

  lemma StripTail(s: string, a: nat, l: string)
    requires a <= |s| && l == s[a..]
    ensures forall k :: a + |l| - TrailingSpaces(l) <= k < |s| ==> IsSpace(s[k])
  {
    var t := TrailingSpaces(l);
    forall k | a + |l| - t <= k < |s| ensures IsSpace(s[k]) {
      var i := k - a;
      assert |l| - t <= i < |l|;
      assert IsSpace(l[i]);
      assert s[k] == l[i];
    }
  }

  lemma StripKeepsChars(s: string, c: char)
    requires c in Strip(s)
    ensures c in s
  {
    var r, a := Strip(s), LeadingSpaces(s);
    var k :| 0 <= k < |r| && r[k] == c;
    assert s[a + k] == c;
  }

  lemma StripOfTrimmed(s: string)
    requires Trimmed(s)
    ensures Strip(s) == s
  {
    var r, a := Strip(s), LeadingSpaces(s);
    if |s| > 0 {
      assert !IsSpace(s[0]) && !IsSpace(s[|s| - 1]);
    }
  }

  /** An all-whitespace string strips to the empty string. */
  predicate IsBlank(s: string) {
    Strip(s) == []
  }

  /** `s.strip(ch)` for a single character `ch`. */
  function StripChar(s: string, ch: char): (r: string)
    ensures |r| <= |s|
    ensures r == [] || (r[0] != ch && r[|r| - 1] != ch)
    decreases |s|
  {
    if |s| > 0 && s[0] == ch then StripChar(s[1..], ch)
    else if |s| > 0 && s[|s| - 1] == ch then StripChar(s[..|s| - 1], ch)
    else s
  }

  /** `r` is the piece `s[a..b]`, and every character of `s` outside it is
      one of `cs`. */
  predicate SliceDropping(s: string, r: string, a: int, b: int, cs: set<char>) {
    && 0 <= a <= b <= |s| && r == s[a..b]
    && (forall k :: 0 <= k < a ==> s[k] in cs)
    && (forall k :: b <= k < |s| ==> s[k] in cs)
  }

  /** A dropped character in front extends the piece's frame by one. */
  lemma SliceDroppingFront(s: string, r: string, a: int, b: int, cs: set<char>)
    requires |s| > 0 && s[0] in cs && SliceDropping(s[1..], r, a, b, cs)
    ensures SliceDropping(s, r, a + 1, b + 1, cs)
  {
    assert s[a + 1..b + 1] == s[1..][a..b];
    forall k | b + 1 <= k < |s| ensures s[k] in cs {
      assert s[k] == s[1..][k - 1];
    }
    forall k | 1 <= k < a + 1 ensures s[k] in cs {
      assert s[k] == s[1..][k - 1];
    }
  }

  /** A dropped character at the back leaves the piece's frame alone. */
  lemma SliceDroppingBack(s: string, r: string, a: int, b: int, cs: set<char>)
    requires |s| > 0 && s[|s| - 1] in cs && SliceDropping(s[..|s| - 1], r, a, b, cs)
    ensures SliceDropping(s, r, a, b, cs)
  {
    assert s[a..b] == s[..|s| - 1][a..b];
    forall k | 0 <= k < a ensures s[k] in cs {
      assert s[k] == s[..|s| - 1][k];
    }
    forall k | b <= k < |s| - 1 ensures s[k] in cs {
      assert s[k] == s[..|s| - 1][k];
    }
  }

  /** A piece of a piece is a piece, dropping the characters of both. */
  lemma SliceDroppingTwice(s: string, u: string, r: string, a1: int, b1: int, a2: int, b2: int,
                           cs: set<char>, ds: set<char>)
    requires SliceDropping(s, u, a1, b1, cs) && SliceDropping(u, r, a2, b2, ds)
    ensures SliceDropping(s, r, a1 + a2, a1 + b2, cs + ds)
  {
    forall i | 0 <= i < b2 - a2 ensures r[i] == s[a1 + a2 + i] {
      assert r[i] == u[a2 + i];
    }
    assert r == s[a1 + a2..a1 + b2];
    forall k | a1 <= k < a1 + a2 ensures s[k] in ds {
      assert s[k] == u[k - a1];
    }
    forall k | a1 + b2 <= k < b1 ensures s[k] in ds {
      assert s[k] == u[k - a1];
    }
  }

  /** `s.strip(ch)` keeps one piece of `s` and drops only `ch` around it. */
  lemma {:induction false} StripCharSpec(s: string, ch: char)
    ensures exists a, b :: SliceDropping(s, StripChar(s, ch), a, b, {ch})
    decreases |s|
  {
    if |s| > 0 && s[0] == ch {
      StripCharSpec(s[1..], ch);
      var a, b :| SliceDropping(s[1..], StripChar(s[1..], ch), a, b, {ch});
      SliceDroppingFront(s, StripChar(s, ch), a, b, {ch});
    } else if |s| > 0 && s[|s| - 1] == ch {
      StripCharSpec(s[..|s| - 1], ch);
      var a, b :| SliceDropping(s[..|s| - 1], StripChar(s[..|s| - 1], ch), a, b, {ch});
      SliceDroppingBack(s, StripChar(s, ch), a, b, {ch});
    } else {
      assert SliceDropping(s, StripChar(s, ch), 0, |s|, {ch});
    }
  }

  // ---------------------------------------------------------------------
  // Searching

  /** `pat` occurs in `s` at index `i`. */
  predicate OccursAt(s: string, pat: string, i: int) {
    0 <= i && i + |pat| <= |s| && s[i..i + |pat|] == pat
  }

  /** `pat in s` */
  predicate Contains(s: string, pat: string) {
    exists i :: 0 <= i <= |s| && OccursAt(s, pat, i)
  }

  /** `s.find(pat)`, with `None` for Python's -1. */
  function Find(s: string, pat: string): (r: Option<nat>)
    ensures r.Some? ==> r.value + |pat| <= |s|
    decreases |s|
  {
    if |s| < |pat| then None
    else if s[..|pat|] == pat then Some(0)
    else
      var rest := Find(s[1..], pat);
      if rest.None? then None else Some(rest.value + 1)
  }

  /** `find` answers the first occurrence, and -1 exactly when there is
      none. */
  lemma {:induction false} FindSpec(s: string, pat: string)
    ensures Find(s, pat).Some? ==> OccursAt(s, pat, Find(s, pat).value)
    ensures Find(s, pat).Some? ==> forall j :: 0 <= j < Find(s, pat).value ==> !OccursAt(s, pat, j)
    ensures Find(s, pat).None? <==> !Contains(s, pat)
    decreases |s|
  {
    if |s| < |pat| {
      forall j | 0 <= j <= |s| ensures !OccursAt(s, pat, j) { }
    } else if s[..|pat|] == pat {
      assert OccursAt(s, pat, 0);
    } else {
      FindSpec(s[1..], pat);
      FindStep(s, pat, Find(s[1..], pat));
    }
  }

  /** An occurrence past the first character is an occurrence in the rest. */
  lemma OccursShift(s: string, pat: string, j: int)
    requires |s| >= 1 && 1 <= j
    ensures OccursAt(s, pat, j) == OccursAt(s[1..], pat, j - 1)
  {
    if j + |pat| <= |s| {
      var x, y := s[j..j + |pat|], s[1..][j - 1..j - 1 + |pat|];
      assert |x| == |y|;
      forall t | 0 <= t < |x| ensures x[t] == y[t] {
        assert x[t] == s[j + t] && y[t] == s[1..][j - 1 + t];
      }
      assert x == y;
    }
  }

  /** The search past a first character that starts no occurrence. */
  lemma FindStep(s: string, pat: string, rest: Option<nat>)
    requires |s| >= |pat| && s[..|pat|] != pat
    requires rest.Some? ==> OccursAt(s[1..], pat, rest.value)
    requires rest.Some? ==> forall j :: 0 <= j < rest.value ==> !OccursAt(s[1..], pat, j)
    requires rest.None? <==> !Contains(s[1..], pat)
    ensures rest.Some? ==> OccursAt(s, pat, rest.value + 1)
    ensures rest.Some? ==> forall j :: 0 <= j < rest.value + 1 ==> !OccursAt(s, pat, j)
    ensures rest.None? <==> !Contains(s, pat)
  {
    assert !OccursAt(s, pat, 0);
    if rest.Some? {
      OccursShift(s, pat, rest.value + 1);
      forall j | 1 <= j < rest.value + 1 ensures !OccursAt(s, pat, j) {
        OccursShift(s, pat, j);
      }
    } else {
      forall j | 0 <= j <= |s| ensures !OccursAt(s, pat, j) {
        if 1 <= j {
          OccursShift(s, pat, j);
          assert !OccursAt(s[1..], pat, j - 1);
        }
      }
    }
  }

  /** The first occurrence is the one `find` answers. */
  lemma FindAt(s: string, pat: string, i: nat)
    requires OccursAt(s, pat, i)
    requires forall j :: 0 <= j < i ==> !OccursAt(s, pat, j)
    ensures Find(s, pat) == Some(i)
  {
    FindSpec(s, pat);
    assert Contains(s, pat);
  }

  /** Python's normalisation of a slice bound `i` against length `n`:
      negative bounds count from the end, and both are clamped to `0..n`. */
  function SliceIndex(i: int, n: nat): (r: nat)
    ensures r <= n
    ensures 0 <= i <= n ==> r == i
  {
    if i < 0 then (if i + n < 0 then 0 else i + n)
    else if i > n then n
    else i
  }

  /** `s[i:j]` with Python's slice semantics. */
  function Slice(s: string, i: int, j: int): (r: string)
    ensures |r| <= |s|
    ensures 0 <= i <= j <= |s| ==> r == s[i..j]
  {
    var a, b := SliceIndex(i, |s|), SliceIndex(j, |s|);
    if a <= b then s[a..b] else []
  }

  /** The last index in `lo..hi` holding `c`, or -1. */
  function LastIndexIn(s: string, c: char, lo: nat, hi: nat): (r: int)
    requires hi <= |s|
    ensures r == -1 || (lo <= r < hi && s[r] == c)
    ensures r == -1 ==> forall k :: lo <= k < hi ==> s[k] != c
    ensures r != -1 ==> forall k :: r < k < hi ==> s[k] != c
    decreases hi
  {
    if hi <= lo then -1
    else if s[hi - 1] == c then hi - 1
    else LastIndexIn(s, c, lo, hi - 1)
  }

  /** `s.rfind(c, start, end)` for a one-character needle, bounds adjusted
      as Python adjusts them. */
  function RFind(s: string, c: char, start: int, end: int): (r: int)
    ensures r == -1 || (SliceIndex(start, |s|) <= r < SliceIndex(end, |s|) && s[r] == c)
    ensures r != -1 ==> forall k :: r < k < SliceIndex(end, |s|) ==> s[k] != c
    ensures r == -1 ==> forall k :: SliceIndex(start, |s|) <= k < SliceIndex(end, |s|) ==> s[k] != c
  {
    LastIndexIn(s, c, SliceIndex(start, |s|), SliceIndex(end, |s|))
  }

  predicate StartsWith(s: string, prefix: string) {
    |prefix| <= |s| && s[..|prefix|] == prefix
  }

  predicate EndsWith(s: string, suffix: string) {
    |suffix| <= |s| && s[|s| - |suffix|..] == suffix
  }

  // ---------------------------------------------------------------------
  // split / join / replace

  /** `s.split(sep)` for a non-empty separator. */
  function Split(s: string, sep: string): (r: seq<string>)
    requires |sep| > 0
    ensures |r| >= 1
    decreases |s|
  {
    match Find(s, sep)
    case None => [s]
    case Some(i) => [s[..i]] + Split(s[i + |sep|..], sep)
  }

  /** No piece of a split contains the separator. */
  lemma {:induction false} SplitPiecesFree(s: string, sep: string)
    requires |sep| > 0
    ensures forall k :: 0 <= k < |Split(s, sep)| ==> !Contains(Split(s, sep)[k], sep)
    decreases |s|
  {
    FindSpec(s, sep);
    match Find(s, sep)
    case None =>
    case Some(i) =>
      var head := s[..i];
      forall j | 0 <= j <= |head| ensures !OccursAt(head, sep, j) {
        PrefixOccurrence(s, sep, i, j);
      }
      SplitPiecesFree(s[i + |sep|..], sep);
  }

  /** Every character of a split piece comes from the text. */
  lemma {:induction false} SplitPieceChars(s: string, sep: string, k: nat)
    requires |sep| > 0 && k < |Split(s, sep)|
    ensures forall c :: c in Split(s, sep)[k] ==> c in s
    decreases |s|
  {
    match Find(s, sep)
    case None =>
    case Some(i) =>
      if k > 0 {
        SplitPieceChars(s[i + |sep|..], sep, k - 1);
        forall c | c in s[i + |sep|..] ensures c in s {
          var x :| 0 <= x < |s[i + |sep|..]| && s[i + |sep|..][x] == c;
          assert s[i + |sep| + x] == c;
        }
      } else {
        forall c | c in s[..i] ensures c in s {
          var x :| 0 <= x < i && s[..i][x] == c;
          assert s[x] == c;
        }
      }
  }

  /** An occurrence in a prefix is an occurrence in the text. */
  lemma PrefixOccurrence(s: string, pat: string, i: nat, j: int)
    requires i <= |s|
    ensures OccursAt(s[..i], pat, j) ==> OccursAt(s, pat, j) && j + |pat| <= i
  {
    if OccursAt(s[..i], pat, j) {
      assert s[j..j + |pat|] == s[..i][j..j + |pat|];
    }
  }

  /** `sep.join(parts)` */
  function Join(parts: seq<string>, sep: string): (r: string)
  {
    if |parts| == 0 then []
    else if |parts| == 1 then parts[0]
    else parts[0] + sep + Join(parts[1..], sep)
  }

  /** Joining the pieces of a split with the same separator gives the text
      back. */
  lemma {:induction false} JoinSplit(s: string, sep: string)
    requires |sep| > 0
    ensures Join(Split(s, sep), sep) == s
    decreases |s|
  {
    match Find(s, sep)
    case None =>
      assert Split(s, sep) == [s];
    case Some(i) =>
      JoinSplit(s[i + |sep|..], sep);
      JoinSplitStep(s, sep, i);
  }

  /** The step of that induction at the first occurrence `i`. */
  lemma JoinSplitStep(s: string, sep: string, i: nat)
    requires |sep| > 0 && Find(s, sep) == Some(i)
    requires Join(Split(s[i + |sep|..], sep), sep) == s[i + |sep|..]
    ensures Join(Split(s, sep), sep) == s
  {
    var head, rest := s[..i], s[i + |sep|..];
    FindSpec(s, sep);
    SplitAtFirst(s, sep, i);
    JoinCons(head, Split(rest, sep), sep);
    assert Join(Split(s, sep), sep) == head + sep + rest;
    SplitAround(s, sep, i);
  }

  /** A split is the text before the first occurrence, then the split of
      the text after it. */
  lemma SplitAtFirst(s: string, sep: string, i: nat)
    requires |sep| > 0 && Find(s, sep) == Some(i)
    ensures i + |sep| <= |s|
    ensures Split(s, sep) == [s[..i]] + Split(s[i + |sep|..], sep)
  {
    SplitUnfold(s, sep, i, s[i + |sep|..]);
  }

  lemma SplitUnfold(s: string, sep: string, i: nat, rest: string)
    requires |sep| > 0 && Find(s, sep) == Some(i) && i + |sep| <= |s| && rest == s[i + |sep|..]
    ensures Split(s, sep) == [s[..i]] + Split(rest, sep)
  {
    var head := s[..i];
    var tail := Split(rest, sep);
    assert Split(s, sep) == [head] + tail;
  }

  /** A text is the part before an occurrence, the occurrence and the
      part after. */
  lemma SplitAround(s: string, sep: string, i: nat)
    requires OccursAt(s, sep, i)
    ensures s == s[..i] + sep + s[i + |sep|..]
  {
    assert s == s[..i] + s[i..i + |sep|] + s[i + |sep|..];
  }

  lemma JoinCons(head: string, tail: seq<string>, sep: string)
    requires |tail| >= 1
    ensures Join([head] + tail, sep) == head + sep + Join(tail, sep)
  {
    var parts := [head] + tail;
    assert parts[1..] == tail;
  }

  /** Joining two non-empty lists is joining each and putting the
      separator between. */
  lemma {:induction false} JoinAppend(a: seq<string>, b: seq<string>, sep: string)
    requires |a| >= 1 && |b| >= 1
    ensures Join(a + b, sep) == Join(a, sep) + sep + Join(b, sep)
    decreases |a|
  {
    if |a| == 1 {
      assert a + b == [a[0]] + b;
      JoinCons(a[0], b, sep);
    } else {
      JoinAppend(a[1..], b, sep);
      assert a + b == [a[0]] + (a[1..] + b);
      JoinCons(a[0], a[1..] + b, sep);
      assert a == [a[0]] + a[1..];
      JoinCons(a[0], a[1..], sep);
    }
  }

  /** Splitting on a one-character separator undoes a join of pieces that
      do not contain it. */
  lemma {:induction false} SplitJoinChar(parts: seq<string>, c: char)
    requires |parts| >= 1
    requires forall k :: 0 <= k < |parts| ==> c !in parts[k]
    ensures Split(Join(parts, [c]), [c]) == parts
    decreases |parts|
  {
    var s := Join(parts, [c]);
    if |parts| == 1 {
      assert s == parts[0];
      PatternAbsent(s, [c]);
      FindSpec(s, [c]);
    } else {
      var p := parts[0];
      var rest := Join(parts[1..], [c]);
      assert s == p + [c] + rest;
      assert OccursAt(s, [c], |p|);
      forall j | 0 <= j < |p| ensures !OccursAt(s, [c], j) {
        assert s[j] == p[j];
      }
      FindAt(s, [c], |p|);
      assert s[|p| + 1..] == rest;
      assert s[..|p|] == p;
      SplitJoinChar(parts[1..], c);
    }
  }

  /** `s.replace(pat, rep)`: a left-to-right scan replacing
      non-overlapping occurrences. */
  function ReplaceAll(s: string, pat: string, rep: string): (r: string)
    requires |pat| > 0
    decreases |s|
  {
    if |s| < |pat| then s
    else if s[..|pat|] == pat then rep + ReplaceAll(s[|pat|..], pat, rep)
    else [s[0]] + ReplaceAll(s[1..], pat, rep)
  }

  lemma {:induction false} ReplaceAllAbsent(s: string, pat: string, rep: string)
    requires |pat| > 0 && !Contains(s, pat)
    ensures ReplaceAll(s, pat, rep) == s
    decreases |s|
  {
    if |s| >= |pat| {
      assert !OccursAt(s, pat, 0);
      assert !Contains(s[1..], pat) by {
        forall j | OccursAt(s[1..], pat, j) ensures false {
          assert s[1..][j..j + |pat|] == s[j + 1..j + 1 + |pat|];
          assert OccursAt(s, pat, j + 1);
        }
      }
      ReplaceAllAbsent(s[1..], pat, rep);
    }
  }

  /** A pattern whose first character never occurs cannot occur. */
  lemma PatternAbsent(s: string, pat: string)
    requires |pat| > 0 && pat[0] !in s
    ensures !Contains(s, pat)
  {
    forall j | 0 <= j <= |s| ensures !OccursAt(s, pat, j) {
      if j + |pat| <= |s| {
        assert s[j..j + |pat|][0] == s[j];
      }
    }
  }

  /** A pattern whose first character never occurs leaves the text as it is. */
  lemma ReplaceAllFree(s: string, pat: string, rep: string)
    requires |pat| > 0 && pat[0] !in s
    ensures ReplaceAll(s, pat, rep) == s
  {
    PatternAbsent(s, pat);
    ReplaceAllAbsent(s, pat, rep);
  }

  /** Replacing a one-character pattern by text without that character
      leaves none of it. */
  lemma {:induction false} ReplaceAllRemovesChar(s: string, c: char, rep: string)
    requires c !in rep
    ensures c !in ReplaceAll(s, [c], rep)
    decreases |s|
  {
    if |s| >= 1 {
      ReplaceAllRemovesChar(s[1..], c, rep);
      if s[..1] != [c] { assert s[0] != c; }
    }
  }

  /** Characters other than `c` survive the replacement. */
  lemma {:induction false} ReplaceAllKeepsOtherChars(s: string, pat: string, rep: string, d: char)
    requires |pat| > 0
    requires d in ReplaceAll(s, pat, rep)
    requires d !in rep
    ensures d in s
    decreases |s|
  {
    if |s| >= |pat| {
      if s[..|pat|] == pat {
        ReplaceAllKeepsOtherChars(s[|pat|..], pat, rep, d);
      } else if d != s[0] {
        ReplaceAllKeepsOtherChars(s[1..], pat, rep, d);
      }
    }
  }

  /** A first character that does not start the pattern is kept first. */
  lemma ReplaceAllFirst(s: string, pat: string, rep: string)
    requires |pat| > 0 && |s| > 0 && s[0] != pat[0]
    ensures |ReplaceAll(s, pat, rep)| > 0 && ReplaceAll(s, pat, rep)[0] == s[0]
  {
  }

  /** A last character that does not end the pattern is kept last. */
  lemma {:induction false} ReplaceAllLast(s: string, pat: string, rep: string)
    requires |pat| > 0 && |s| > 0 && s[|s| - 1] != pat[|pat| - 1]
    ensures var r := ReplaceAll(s, pat, rep); |r| > 0 && r[|r| - 1] == s[|s| - 1]
    decreases |s|
  {
    if |s| >= |pat| {
      if s[..|pat|] == pat {
        if |s| == |pat| {
          assert false;
        }
        ReplaceAllLast(s[|pat|..], pat, rep);
      } else if |s| > 1 {
        ReplaceAllLast(s[1..], pat, rep);
      }
    }
  }

  // ---------------------------------------------------------------------
  // Digits, str(int) and int(str)

  predicate IsDigitChar(c: char) {
    '0' <= c <= '9'
  }

  /** `s.isdigit()` for ASCII digits: non-empty and all digits. */
  predicate IsDigits(s: string) {
    |s| > 0 && forall k :: 0 <= k < |s| ==> IsDigitChar(s[k])
  }

  function DigitChar(d: nat): (c: char)
    requires d < 10
    ensures IsDigitChar(c)
  {
    ('0' as int + d) as char
  }

  /** The value of a run of ASCII digits. */
  function DigitsValue(s: string): nat
    requires forall k :: 0 <= k < |s| ==> IsDigitChar(s[k])
    decreases |s|
  {
    if |s| == 0 then 0
    else
      assert IsDigitChar(s[|s| - 1]);
      DigitsValue(s[..|s| - 1]) * 10 + (s[|s| - 1] as int - '0' as int)
  }

  /** `str(n)` for a natural number. */
  function NatToString(n: nat): (r: string)
    ensures IsDigits(r)
    decreases n
  {
    if n < 10 then [DigitChar(n)] else NatToString(n / 10) + [DigitChar(n % 10)]
  }

  /** `str(i)` for any integer. */
  function IntToString(i: int): string {
    if i < 0 then "-" + NatToString(-i) else NatToString(i)
  }

  lemma {:induction false} NatToStringValue(n: nat)
    ensures DigitsValue(NatToString(n)) == n
    decreases n
  {
    if n >= 10 {
      NatToStringValue(n / 10);
      var s := NatToString(n);
      assert s[..|s| - 1] == NatToString(n / 10);
    }
  }

  /** The digits of a literal, with its `_` separators dropped. */
  function DropUnderscores(s: string): (r: string)
    ensures |r| <= |s|
    ensures (forall k :: 0 <= k < |s| ==> IsDigitChar(s[k]) || s[k] == '_')
            ==> forall k :: 0 <= k < |r| ==> IsDigitChar(r[k])
    ensures (forall k :: 0 <= k < |s| ==> s[k] != '_') ==> r == s
    decreases |s|
  {
    if |s| == 0 then []
    else if s[0] == '_' then DropUnderscores(s[1..])
    else [s[0]] + DropUnderscores(s[1..])
  }

  /** A base-10 integer literal as Python's `int()` reads one: digits,
      with single `_` separators between digits. */
  predicate IsDecimalLiteral(s: string) {
    && |s| > 0
    && IsDigitChar(s[0])
    && IsDigitChar(s[|s| - 1])
    && (forall k :: 0 <= k < |s| ==> IsDigitChar(s[k]) || s[k] == '_')
    && (forall k :: 0 <= k < |s| - 1 && s[k] == '_' ==> s[k + 1] != '_')
  }

  /** The value of a decimal literal. */
  function LiteralValue(body: string): nat
    requires IsDecimalLiteral(body)
  {
    DigitsValue(DropUnderscores(body))
  }

  /** `int(s)` in base 10, `None` where Python raises `ValueError`. */
  function ParseInt(s: string): (r: Option<int>)
  {
    ParseLiteral(Strip(s))
  }

  /** `int()` of a string with no surrounding whitespace: an optional sign,
      then a decimal literal. */
  function ParseLiteral(t: string): Option<int>
  {
    var signed := |t| > 0 && (t[0] == '+' || t[0] == '-');
    var body := if signed then t[1..] else t;
    if !IsDecimalLiteral(body) then None
    else
      var v: int := LiteralValue(body);
      Some(if signed && t[0] == '-' then -v else v)
  }

  lemma DigitsAreLiteral(d: string)
    requires IsDigits(d)
    ensures IsDecimalLiteral(d) && DropUnderscores(d) == d
  {
  }

  /** How `ParseInt` reads an already stripped string. */
  lemma ParseIntStripped(t: string)
    requires Strip(t) == t
    ensures var signed := |t| > 0 && (t[0] == '+' || t[0] == '-');
            var body := if signed then t[1..] else t;
            ParseInt(t) == if !IsDecimalLiteral(body) then None
                           else if signed && t[0] == '-' then Some(-(LiteralValue(body) as int))
                           else Some(LiteralValue(body))
  {
    assert ParseInt(t) == ParseLiteral(t);
  }

  lemma ParseIntOfDigits(s: string)
    requires IsDigits(s) && Strip(s) == s
    ensures ParseInt(s) == Some(DigitsValue(s))
  {
    ParseIntStripped(s);
    DigitsAreLiteral(s);
    assert IsDigitChar(s[0]);
  }

  lemma ParseIntOfNegative(s: string)
    requires |s| > 1 && s[0] == '-' && IsDigits(s[1..]) && Strip(s) == s
    ensures ParseInt(s) == Some(-(DigitsValue(s[1..]) as int))
  {
    assert ParseInt(s) == ParseLiteral(s);
    DigitsAreLiteral(s[1..]);
    assert LiteralValue(s[1..]) == DigitsValue(s[1..]);
  }

  /** `int(str(i)) == i` */
  lemma ParseIntToString(i: int)
    ensures ParseInt(IntToString(i)) == Some(i)
  {
    var n: nat := if i < 0 then -i else i;
    var digits := NatToString(n);
    NatToStringValue(n);
    var s := IntToString(i);
    assert IsDigitChar(s[|s| - 1]) by {
      assert s[|s| - 1] == digits[|digits| - 1];
    }
    assert !IsSpace(s[|s| - 1]);
    assert !IsSpace(s[0]);
    StripOfTrimmed(s);
    if i < 0 {
      assert s[1..] == digits;
      ParseIntOfNegative(s);
    } else {
      ParseIntOfDigits(s);
    }
  }
}
