/**
 * The clean-up the seed script (prisma/seed.ts) applies to the names it
 * reads: course names lose a leading number, chapter titles keep what
 * follows their first " - ", and video titles lose the chapter title they
 * repeat.
 */
module SeedTitles {
  import opened CharClasses

  /** `needle` occurs in `haystack` at position `j`. */
  ghost predicate OccursAt(haystack: string, needle: string, j: int) {
    0 <= j && j + |needle| <= |haystack| && haystack[j..j + |needle|] == needle
  }

  /** `haystack.indexOf(needle)`: the first position of `needle`, or -1 when it does not occur. */
  function IndexOf(haystack: string, needle: string): (i: int)
    ensures i == -1 || 0 <= i <= |haystack| - |needle|
    ensures i >= 0 ==> OccursAt(haystack, needle, i)
    ensures forall j :: 0 <= j && (i < 0 || j < i) ==> !OccursAt(haystack, needle, j)
    decreases |haystack|
  {
    if |haystack| < |needle| then -1
    else if haystack[..|needle|] == needle then 0
    else
      var r := IndexOf(haystack[1..], needle);
      assert forall j :: 1 <= j ==> (OccursAt(haystack, needle, j) <==> OccursAt(haystack[1..], needle, j - 1)) by {
        forall j | 1 <= j && OccursAt(haystack, needle, j)
          ensures OccursAt(haystack[1..], needle, j - 1)
        {
          assert haystack[1..][j - 1..j - 1 + |needle|] == haystack[j..j + |needle|];
        }
        forall j | 1 <= j && OccursAt(haystack[1..], needle, j - 1)
          ensures OccursAt(haystack, needle, j)
        {
          assert haystack[1..][j - 1..j - 1 + |needle|] == haystack[j..j + |needle|];
        }
      }
      if r < 0 then -1 else r + 1
  }

  /** `s.slice(start, s.length)` for a non-negative start: past the end gives `""`. */
  function SliceFrom(s: string, start: nat): (r: string)
    ensures |r| <= |s|
    ensures start <= |s| ==> s == s[..start] + r
    ensures start >= |s| ==> r == ""
  {
    if start >= |s| then "" else s[start..]
  }

  /** How many characters at the start of `s` satisfy the class. */
  function DigitRun(s: string): (n: nat)
    ensures n <= |s| && (forall k :: 0 <= k < n ==> IsDigit(s[k])) && (n < |s| ==> !IsDigit(s[n]))
    decreases |s|
  {
    if s == [] || !IsDigit(s[0]) then 0 else 1 + DigitRun(s[1..])
  }

  function SpaceRun(s: string): (n: nat)
    ensures n <= |s| && (forall k :: 0 <= k < n ==> IsSpace(s[k])) && (n < |s| ==> !IsSpace(s[n]))
    decreases |s|
  {
    if s == [] || !IsSpace(s[0]) then 0 else 1 + SpaceRun(s[1..])
  }

  /** The length of the match of `^[0-9]+\.\s+` in `s`, or 0 when there is none. */
  function NumberPrefixLength(s: string): (n: nat)
    ensures n <= |s|
  {
    var digits := DigitRun(s);
    if digits > 0 && digits < |s| && s[digits] == '.' then
      var spaces := SpaceRun(s[digits + 1..]);
      if spaces > 0 then digits + 1 + spaces else 0
    else 0
  }

  /** The course name with a leading number removed: `"01. Salsa"` becomes `"Salsa"`. */
  function CourseName(raw: string): (r: string)
    ensures |r| <= |raw| && raw == raw[..|raw| - |r|] + r
  {
    raw[NumberPrefixLength(raw)..]
  }

  /** The chapter title after its first `" - "`; without one, `indexOf` gives -1 and two characters are cut. */
  function ChapterTitle(raw: string): (r: string)
    ensures |r| <= |raw|
  {
    SliceFrom(raw, IndexOf(raw, " - ") + 3)
  }

  /** The video title after the first occurrence of the chapter title and one more character. */
  function VideoTitle(raw: string, chapterTitle: string): (r: string)
    ensures |r| <= |raw|
  {
    var idx := IndexOf(raw, chapterTitle);
    if idx != -1 then SliceFrom(raw, idx + |chapterTitle| + 1) else raw
  }

  /** `p` is a whole match of `^[0-9]+\.\s+`. */
  ghost predicate IsNumberPrefix(p: string) {
    exists d :: 1 <= d && d + 2 <= |p| && (forall k :: 0 <= k < d ==> IsDigit(p[k])) && p[d] == '.'
      && forall k :: d < k < |p| ==> IsSpace(p[k])
  }

  lemma DigitRunOf(digits: string, tail: string)
    requires forall k :: 0 <= k < |digits| ==> IsDigit(digits[k])
    requires tail == [] || !IsDigit(tail[0])
    ensures DigitRun(digits + tail) == |digits|
  {
    var s := digits + tail;
    assert forall k :: 0 <= k < |digits| ==> s[k] == digits[k];
    assert |digits| < |s| ==> s[|digits|] == tail[0];
  }

  lemma SpaceRunOf(spaces: string, tail: string)
    requires forall k :: 0 <= k < |spaces| ==> IsSpace(spaces[k])
    requires tail == [] || !IsSpace(tail[0])
    ensures SpaceRun(spaces + tail) == |spaces|
  {
    var s := spaces + tail;
    assert forall k :: 0 <= k < |spaces| ==> s[k] == spaces[k];
    assert |spaces| < |s| ==> s[|spaces|] == tail[0];
  }

  /** A name `digits + "." + spaces + rest` loses the whole number prefix, once. */
  lemma CourseNameStripsNumber(digits: string, spaces: string, rest: string)
    requires digits != [] && forall k :: 0 <= k < |digits| ==> IsDigit(digits[k])
    requires spaces != [] && forall k :: 0 <= k < |spaces| ==> IsSpace(spaces[k])
    requires rest == [] || !IsSpace(rest[0])
    ensures CourseName(digits + "." + spaces + rest) == rest
  {
    var s := digits + "." + spaces + rest;
    var d := |digits|;
    var after := spaces + rest;
    assert s == digits + (['.'] + after);
    DigitRunOf(digits, ['.'] + after);
    assert s[d] == '.' && s[d + 1..] == after;
    SpaceRunOf(spaces, rest);
    assert s[d + 1 + |spaces|..] == rest;
  }

  /** A non-zero prefix length is that of a whole match of `^[0-9]+\.\s+`. */
  lemma NumberPrefixMatches(raw: string)
    requires NumberPrefixLength(raw) > 0
    ensures IsNumberPrefix(raw[..NumberPrefixLength(raw)])
  {
    var n := NumberPrefixLength(raw);
    var d := DigitRun(raw);
    var p := raw[..n];
    assert 1 <= d && d + 2 <= |p| && (forall k :: 0 <= k < d ==> IsDigit(p[k])) && p[d] == '.';
    assert forall k :: d < k < |p| ==> IsSpace(p[k]) by {
      forall k | d < k < |p| ensures IsSpace(p[k]) {
        assert p[k] == raw[d + 1..][k - d - 1];
      }
    }
  }

  /** A name that does not start with a number prefix is kept as it is. */
  lemma CourseNameKeepsOthers(raw: string)
    requires forall m :: 0 < m <= |raw| ==> !IsNumberPrefix(raw[..m])
    ensures CourseName(raw) == raw
  {
    if NumberPrefixLength(raw) > 0 {
      NumberPrefixMatches(raw);
      assert false;
    }
  }

  /** `"01. Salsa"` becomes `"Salsa"`. */
  lemma CourseNameExample()
    ensures CourseName("01. Salsa") == "Salsa"
  {
    assert "01. Salsa" == "01" + "." + " " + "Salsa";
    CourseNameStripsNumber("01", " ", "Salsa");
  }

  /** A chapter title keeps exactly what follows its first `" - "`. */
  lemma ChapterTitleAfterSeparator(before: string, after: string)
    requires forall j :: 0 <= j < |before| ==> !OccursAt(before + " - " + after, " - ", j)
    ensures ChapterTitle(before + " - " + after) == after
  {
    var s := before + " - " + after;
    assert OccursAt(s, " - ", |before|) by {
      assert s[|before|..|before| + 3] == " - ";
    }
    assert IndexOf(s, " - ") == |before|;
    assert s[|before| + 3..] == after;
  }

  /** Without a `" - "`, a chapter title loses its first two characters. */
  lemma ChapterTitleWithoutSeparator(raw: string)
    requires forall j :: !OccursAt(raw, " - ", j)
    ensures ChapterTitle(raw) == if |raw| <= 2 then "" else raw[2..]
  {
  }

  /** `"1 - Basics"` becomes `"Basics"`. */
  lemma ChapterTitleExample()
    ensures ChapterTitle("1 - Basics") == "Basics"
  {
    assert "1 - Basics" == "1" + " - " + "Basics";
    assert !OccursAt("1 - Basics", " - ", 0) by {
      assert "1 - Basics"[0..3][0] == '1';
    }
    ChapterTitleAfterSeparator("1", "Basics");
  }

  /** A video title repeating the chapter title keeps what follows its first occurrence, less one separator character. */
  lemma VideoTitleAfterChapter(before: string, chapterTitle: string, after: string)
    requires forall j :: 0 <= j < |before| ==> !OccursAt(before + chapterTitle + after, chapterTitle, j)
    ensures VideoTitle(before + chapterTitle + after, chapterTitle) == if after == [] then [] else after[1..]
  {
    var s := before + chapterTitle + after;
    assert OccursAt(s, chapterTitle, |before|) by {
      assert s[|before|..|before| + |chapterTitle|] == chapterTitle;
    }
    assert IndexOf(s, chapterTitle) == |before|;
    if after != [] {
      assert s[|before| + |chapterTitle| + 1..] == after[1..];
    }
  }

  /** A video title that does not contain the chapter title is kept as it is. */
  lemma VideoTitleWithoutChapter(raw: string, chapterTitle: string)
    requires forall j :: !OccursAt(raw, chapterTitle, j)
    ensures VideoTitle(raw, chapterTitle) == raw
  {
  }
}
