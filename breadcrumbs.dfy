/**
 * Breadcrumb derivation from the router path (src/components/Breadcrumbs.tsx):
 * the query is cut off, the path is split on `/` with empty parts dropped,
 * every part gets a crumb linking to the path up to it, with its text in
 * title case, and the first crumb is dropped.
 */
module Breadcrumbs {
  import opened CharClasses

  datatype Crumb = Crumb(href: string, text: string)

  /** `s.split(sep)` for a one-character separator: `""` splits into `[""]`. */
  function Split(s: string, sep: char): (parts: seq<string>)
    ensures |parts| >= 1
    ensures forall i :: 0 <= i < |parts| ==> sep !in parts[i]
    decreases |s|
  {
    if s == [] then [""]
    else
      var rest := Split(s[1..], sep);
      if s[0] == sep then [""] + rest
      else [[s[0]] + rest[0]] + rest[1..]
  }

  /** `parts.join(sep)`: `[]` joins to `""`. */
  function Join(parts: seq<string>, sep: string): string
    decreases |parts|
  {
    if |parts| == 0 then ""
    else if |parts| == 1 then parts[0]
    else parts[0] + sep + Join(parts[1..], sep)
  }

  /** `parts.filter((v) => v.length > 0)`. */
  function NonEmpty(parts: seq<string>): seq<string>
    decreases |parts|
  {
    if parts == [] then []
    else if parts[0] == "" then NonEmpty(parts[1..])
    else [parts[0]] + NonEmpty(parts[1..])
  }

  /** The filter keeps only non-empty parts, each one taken from the input. */
  lemma {:induction false} NonEmptyParts(parts: seq<string>)
    ensures forall i :: 0 <= i < |NonEmpty(parts)| ==> NonEmpty(parts)[i] != "" && NonEmpty(parts)[i] in parts
    decreases |parts|
  {
    if parts != [] {
      NonEmptyParts(parts[1..]);
      var r := NonEmpty(parts);
      var rest := NonEmpty(parts[1..]);
      forall i | 0 <= i < |r| ensures r[i] != "" && r[i] in parts {
        if parts[0] == "" {
          assert r[i] == rest[i];
          assert rest[i] in parts[1..];
        } else if i > 0 {
          assert r[i] == rest[i - 1];
          assert rest[i - 1] in parts[1..];
        }
      }
    }
  }

  /** `asPath.split("?")[0]`: everything before the first `?`. */
  function StripQuery(asPath: string): string {
    Split(asPath, '?')[0]
  }

  /** The non-empty parts of the path, without the query. */
  function Segments(asPath: string): seq<string> {
    NonEmpty(Split(StripQuery(asPath), '/'))
  }

  /** The path the crumbs of `asPath` describe, with empty parts and the query removed. */
  function NormalizedPath(asPath: string): string {
    "/" + Join(Segments(asPath), "/")
  }

  /** Upper-casing, for the ASCII letters. */
  function Upper(c: char): char {
    if 'a' <= c <= 'z' then (c as int - 32) as char else c
  }

  /** Lower-casing, for the ASCII letters. */
  function Lower(c: char): char {
    if 'A' <= c <= 'Z' then (c as int + 32) as char else c
  }

  function LowerAll(s: string): (r: string)
    ensures |r| == |s| && forall k :: 0 <= k < |s| ==> r[k] == Lower(s[k])
    decreases |s|
  {
    if s == [] then [] else [Lower(s[0])] + LowerAll(s[1..])
  }

  /** How far `\S*` reaches from the start of `s`. */
  function RunLength(s: string): (n: nat)
    ensures n <= |s|
    ensures forall k :: 0 <= k < n ==> !IsSpace(s[k])
    ensures n < |s| ==> IsSpace(s[n])
    decreases |s|
  {
    if s == [] || IsSpace(s[0]) then 0 else 1 + RunLength(s[1..])
  }

  /**
   * `toTitleCase`: scanning left to right, every run that starts at a word
   * character and reaches up to the next white space gets its first
   * character upper-cased and the rest lower-cased; other characters are
   * kept.
   */
  function ToTitleCase(s: string): (r: string)
    ensures |r| == |s|
    decreases |s|
  {
    if s == [] then []
    else if IsWordChar(s[0]) then
      var n := RunLength(s[1..]);
      [Upper(s[0])] + LowerAll(s[1..1 + n]) + ToTitleCase(s[1 + n..])
    else [s[0]] + ToTitleCase(s[1..])
  }

  /** `crumbs` before the first one is dropped: crumb `i` links to the first `i + 1` segments. */
  function AllCrumbs(segments: seq<string>): (crumbs: seq<Crumb>) {
    seq(|segments|, i requires 0 <= i < |segments| =>
      Crumb("/" + Join(segments[..i + 1], "/"), ToTitleCase(segments[i])))
  }

  /** The crumbs of a segment list, the first one dropped. */
  function CrumbsOf(segments: seq<string>): seq<Crumb> {
    var crumbs := AllCrumbs(segments);
    if |crumbs| == 0 then [] else crumbs[1..]
  }

  /** `generateBreadcrumbs`, on the router's `asPath`. */
  function GenerateBreadcrumbs(asPath: string): seq<Crumb> {
    CrumbsOf(Segments(asPath))
  }

  // ---- splitting and joining ----

  lemma {:induction false} SplitNoSeparator(s: string, sep: char)
    requires sep !in s
    ensures Split(s, sep) == [s]
    decreases |s|
  {
    if s != [] {
      SplitNoSeparator(s[1..], sep);
      assert s == [s[0]] + s[1..];
    }
  }

  /** Every character of a part occurs in the string that was split. */
  lemma {:induction false} SplitKeepsChars(s: string, sep: char)
    ensures forall i, k :: 0 <= i < |Split(s, sep)| && 0 <= k < |Split(s, sep)[i]| ==> Split(s, sep)[i][k] in s
    decreases |s|
  {
    if s != [] {
      SplitKeepsChars(s[1..], sep);
      var rest := Split(s[1..], sep);
      var parts := Split(s, sep);
      assert s == [s[0]] + s[1..];
      forall i, k | 0 <= i < |parts| && 0 <= k < |parts[i]|
        ensures parts[i][k] in s
      {
        if s[0] == sep {
          assert parts[i] == rest[i - 1];
        } else if i == 0 && k > 0 {
          assert parts[0][k] == rest[0][k - 1];
        } else if i > 0 {
          assert parts[i] == rest[i];
        }
      }
    }
  }

  /** Splitting stops at the first separator. */
  lemma {:induction false} SplitAtFirst(a: string, sep: char, b: string)
    requires sep !in a
    ensures Split(a + [sep] + b, sep) == [a] + Split(b, sep)
    decreases |a|
  {
    if a == [] {
      assert a + [sep] + b == [sep] + b;
      assert ([sep] + b)[1..] == b;
    } else {
      assert (a + [sep] + b)[1..] == a[1..] + [sep] + b;
      SplitAtFirst(a[1..], sep, b);
      assert [a[0]] + a[1..] == a;
    }
  }

  /** Joining the parts of a split with the separator gives the string back. */
  lemma {:induction false} JoinOfSplit(s: string, sep: char)
    ensures Join(Split(s, sep), [sep]) == s
    decreases |s|
  {
    if s != [] {
      var rest := Split(s[1..], sep);
      JoinOfSplit(s[1..], sep);
      if s[0] == sep {
        assert Split(s, sep) == [""] + rest;
        assert ([""] + rest)[1..] == rest;
        assert s == [sep] + s[1..];
      } else {
        var parts := Split(s, sep);
        assert parts == [[s[0]] + rest[0]] + rest[1..];
        if |rest| == 1 {
          assert s == [s[0]] + rest[0];
        } else {
          assert parts[1..] == rest[1..];
          assert Join(rest, [sep]) == rest[0] + [sep] + Join(rest[1..], [sep]);
          assert s == [s[0]] + s[1..];
        }
      }
    }
  }

  /** Splitting parts joined with a separator none of them contains gives the parts back. */
  lemma {:induction false} SplitOfJoin(parts: seq<string>, sep: char)
    requires |parts| >= 1
    requires forall i :: 0 <= i < |parts| ==> sep !in parts[i]
    ensures Split(Join(parts, [sep]), sep) == parts
    decreases |parts|
  {
    if |parts| == 1 {
      SplitNoSeparator(parts[0], sep);
    } else {
      SplitOfJoin(parts[1..], sep);
      SplitAtFirst(parts[0], sep, Join(parts[1..], [sep]));
    }
  }

  lemma {:induction false} JoinSnoc(parts: seq<string>, x: string, sep: string)
    requires |parts| >= 1
    ensures Join(parts + [x], sep) == Join(parts, sep) + sep + x
    decreases |parts|
  {
    if |parts| > 1 {
      assert (parts + [x])[1..] == parts[1..] + [x];
      JoinSnoc(parts[1..], x, sep);
    }
  }

  lemma {:induction false} NonEmptyKeeps(parts: seq<string>)
    requires forall i :: 0 <= i < |parts| ==> parts[i] != ""
    ensures NonEmpty(parts) == parts
    decreases |parts|
  {
    if parts != [] {
      NonEmptyKeeps(parts[1..]);
    }
  }

  // ---- the crumbs ----

  /** Everything from the first `?` on is ignored. */
  lemma QueryIgnored(path: string, query: string)
    requires '?' !in path
    ensures GenerateBreadcrumbs(path + "?" + query) == GenerateBreadcrumbs(path)
  {
    SplitAtFirst(path, '?', query);
    SplitNoSeparator(path, '?');
  }

  /** No segment is empty or contains a separator or a `?`. */
  lemma SegmentsClean(asPath: string)
    ensures forall i :: 0 <= i < |Segments(asPath)| ==>
      Segments(asPath)[i] != "" && '/' !in Segments(asPath)[i] && '?' !in Segments(asPath)[i]
  {
    var stripped := StripQuery(asPath);
    var parts := Split(stripped, '/');
    NonEmptyParts(parts);
    forall i | 0 <= i < |Segments(asPath)|
      ensures '?' !in Segments(asPath)[i]
    {
      var seg := Segments(asPath)[i];
      var j :| 0 <= j < |parts| && parts[j] == seg;
      SplitKeepsChars(stripped, '/');
      forall k | 0 <= k < |seg| ensures seg[k] != '?' {
        assert seg[k] in stripped;
      }
    }
  }

  /** A path and its normalised form give the same crumbs: doubled and trailing slashes and the query make no difference. */
  lemma NormalizedSameCrumbs(asPath: string)
    ensures Segments(NormalizedPath(asPath)) == Segments(asPath)
    ensures GenerateBreadcrumbs(NormalizedPath(asPath)) == GenerateBreadcrumbs(asPath)
  {
    var segs := Segments(asPath);
    SegmentsClean(asPath);
    var p := NormalizedPath(asPath);
    var joined := Join(segs, "/");
    assert '?' !in p by {
      if segs != [] {
        assert forall i :: 0 <= i < |segs| ==> segs[i] + [] != "" && '?' !in segs[i];
        assert Split(joined, '/') == segs by { SplitOfJoin(segs, '/'); }
        JoinOfSplit(joined, '/');
        forall k | 0 <= k < |joined| ensures joined[k] != '?' {
          JoinNoChar(segs, "/", '?', k);
        }
      }
    }
    SplitNoSeparator(p, '?');
    assert StripQuery(p) == p;
    assert p == [] + ['/'] + joined;
    SplitAtFirst([], '/', joined);
    if segs == [] {
      assert Split(p, '/') == ["", ""];
      assert ["", ""][1..] == [""] && [""][1..] == [];
    } else {
      SplitOfJoin(segs, '/');
      NonEmptyKeeps(segs);
      assert Split(p, '/') == [""] + segs;
      assert ([""] + segs)[1..] == segs;
    }
  }

  lemma {:induction false} JoinNoChar(parts: seq<string>, sep: string, c: char, k: int)
    requires c !in sep
    requires forall i :: 0 <= i < |parts| ==> c !in parts[i]
    requires 0 <= k < |Join(parts, sep)|
    ensures Join(parts, sep)[k] != c
    decreases |parts|
  {
    if |parts| > 1 {
      var rest := Join(parts[1..], sep);
      assert Join(parts, sep) == parts[0] + sep + rest;
      if k >= |parts[0]| + |sep| {
        JoinNoChar(parts[1..], sep, c, k - |parts[0]| - |sep|);
      } else if k >= |parts[0]| {
        assert Join(parts, sep)[k] == sep[k - |parts[0]|];
      } else {
        assert Join(parts, sep)[k] == parts[0][k];
      }
    }
  }

  /** The first segment never gets a crumb of its own: there is one crumb fewer than there are segments. */
  lemma CrumbCount(segments: seq<string>)
    ensures |CrumbsOf(segments)| == if |segments| == 0 then 0 else |segments| - 1
  {
  }

  /** Crumb `i` stands for segment `i + 1`, links to the segments up to it, and shows it in title case. */
  lemma CrumbAt(segments: seq<string>, i: nat)
    requires i < |CrumbsOf(segments)|
    ensures CrumbsOf(segments)[i].href == "/" + Join(segments[..i + 2], "/")
    ensures CrumbsOf(segments)[i].text == ToTitleCase(segments[i + 1])
  {
  }

  /** Each crumb's link extends the previous one by a slash and the next segment. */
  lemma HrefExtends(segments: seq<string>, i: nat)
    requires i + 1 < |CrumbsOf(segments)|
    ensures CrumbsOf(segments)[i + 1].href == CrumbsOf(segments)[i].href + "/" + segments[i + 2]
    ensures |CrumbsOf(segments)[i].href| < |CrumbsOf(segments)[i + 1].href|
  {
    var crumbs := CrumbsOf(segments);
    var joined := Join(segments[..i + 2], "/");
    assert crumbs[i].href == "/" + joined;
    assert segments[..i + 3] == segments[..i + 2] + [segments[i + 2]];
    JoinSnoc(segments[..i + 2], segments[i + 2], "/");
    assert crumbs[i + 1].href == "/" + (joined + "/" + segments[i + 2]);
  }

  /** The last crumb links to the whole path, rebuilt from the segments. */
  lemma LastHrefIsPath(segments: seq<string>)
    requires |CrumbsOf(segments)| > 0
    ensures CrumbsOf(segments)[|CrumbsOf(segments)| - 1].href == "/" + Join(segments, "/")
  {
    assert segments[..|segments|] == segments;
  }

  lemma {:induction false} NonEmptyAppend(x: seq<string>, y: seq<string>)
    ensures NonEmpty(x + y) == NonEmpty(x) + NonEmpty(y)
    decreases |x|
  {
    if x != [] {
      var z := x + y;
      assert z[0] == x[0] && z[1..] == x[1..] + y;
      NonEmptyAppend(x[1..], y);
      if x[0] == "" {
        assert NonEmpty(z) == NonEmpty(z[1..]);
      } else {
        assert NonEmpty(z) == [x[0]] + NonEmpty(z[1..]);
        assert NonEmpty(x) == [x[0]] + NonEmpty(x[1..]);
      }
    } else {
      assert x + y == y;
    }
  }

  /** A path segment as the router produces it: non-empty, without `/` or `?`. */
  predicate CleanSegment(s: string) {
    s != "" && '/' !in s && '?' !in s
  }

  lemma SegmentsOfPlainPath(a: string, b: string)
    requires CleanSegment(a) && CleanSegment(b)
    ensures Segments("/" + a + "/" + b) == [a, b]
  {
    var p := "/" + a + "/" + b;
    assert '?' !in p;
    SplitNoSeparator(p, '?');
    assert StripQuery(p) == p;
    var tail := a + ['/'] + b;
    assert p == [] + ['/'] + tail;
    SplitNoSeparator(b, '/');
    SplitAtFirst(a, '/', b);
    assert Split(tail, '/') == [a, b];
    SplitAtFirst([], '/', tail);
    assert Split(p, '/') == [""] + [a] + [b];
    NonEmptyAppend([""] + [a], [b]);
    NonEmptyAppend([""], [a]);
  }

  /** Empty parts are dropped: `//a//b/` has the segments, and so the crumbs, of `/a/b`. */
  lemma EmptySegmentsDropped(a: string, b: string)
    requires CleanSegment(a) && CleanSegment(b)
    ensures Segments("//" + a + "//" + b + "/") == Segments("/" + a + "/" + b) == [a, b]
    ensures GenerateBreadcrumbs("//" + a + "//" + b + "/") == GenerateBreadcrumbs("/" + a + "/" + b)
  {
    SegmentsOfPlainPath(a, b);
    var p := "//" + a + "//" + b + "/";
    assert '?' !in p;
    SplitNoSeparator(p, '?');
    assert p == [] + ['/'] + ([] + ['/'] + (a + ['/'] + ([] + ['/'] + (b + ['/'] + []))));
    SplitAtFirst(b, '/', []);
    SplitAtFirst([], '/', b + ['/'] + []);
    SplitAtFirst(a, '/', [] + ['/'] + (b + ['/'] + []));
    SplitAtFirst([], '/', a + ['/'] + ([] + ['/'] + (b + ['/'] + [])));
    SplitAtFirst([], '/', [] + ['/'] + (a + ['/'] + ([] + ['/'] + (b + ['/'] + []))));
    assert Split(p, '/') == [""] + [""] + [a] + [""] + [b] + [""];
    NonEmptyAppend([""] + [""] + [a] + [""] + [b], [""]);
    NonEmptyAppend([""] + [""] + [a] + [""], [b]);
    NonEmptyAppend([""] + [""] + [a], [""]);
    NonEmptyAppend([""] + [""], [a]);
    NonEmptyAppend([""], [""]);
  }

  /** Two segments give a single crumb, for the second one, linking to both. */
  lemma TwoSegmentCrumbs(first: string, second: string)
    ensures CrumbsOf([first, second]) == [Crumb("/" + first + "/" + second, ToTitleCase(second))]
  {
    var segs := [first, second];
    assert segs[..2] == segs && segs[1..] == [second];
    assert Join(segs, "/") == first + "/" + second;
    CrumbAt(segs, 0);
    var g := CrumbsOf(segs);
    assert g[0].href == "/" + first + "/" + second;
    assert g == [g[0]];
  }

  /** A two-level page path (course, then chapter) gives a single crumb: the chapter, in title case. */
  lemma ChapterCrumb(course: string, chapter: string)
    requires CleanSegment(course) && CleanSegment(chapter)
    ensures GenerateBreadcrumbs("/" + course + "/" + chapter)
      == [Crumb("/" + course + "/" + chapter, ToTitleCase(chapter))]
  {
    SegmentsOfPlainPath(course, chapter);
    TwoSegmentCrumbs(course, chapter);
  }
  // ---- title case ----

  lemma CaseKeepsClass(c: char)
    ensures IsSpace(Upper(c)) == IsSpace(c) && IsWordChar(Upper(c)) == IsWordChar(c)
    ensures IsSpace(Lower(c)) == IsSpace(c) && IsWordChar(Lower(c)) == IsWordChar(c)
    ensures Upper(Upper(c)) == Upper(c) && Lower(Lower(c)) == Lower(c)
  {
  }

  /** Title-casing keeps every white space character where it is and creates none. */
  lemma {:induction false} TitleCaseKeepsSpace(s: string)
    ensures forall k :: 0 <= k < |s| && IsSpace(s[k]) ==> ToTitleCase(s)[k] == s[k]
    ensures forall k :: 0 <= k < |s| ==> (IsSpace(ToTitleCase(s)[k]) <==> IsSpace(s[k]))
    decreases |s|
  {
    if s != [] {
      var r := ToTitleCase(s);
      if IsWordChar(s[0]) {
        var n := RunLength(s[1..]);
        var lowered := LowerAll(s[1..1 + n]);
        var rest := s[1 + n..];
        TitleCaseKeepsSpace(rest);
        assert r == [Upper(s[0])] + lowered + ToTitleCase(rest);
        forall k | 0 <= k < |s|
          ensures IsSpace(s[k]) ==> r[k] == s[k]
          ensures IsSpace(r[k]) <==> IsSpace(s[k])
        {
          if k == 0 {
            CaseKeepsClass(s[0]);
          } else if k <= n {
            assert r[k] == Lower(s[k]) && !IsSpace(s[1..][k - 1]);
            CaseKeepsClass(s[k]);
          } else {
            assert r[k] == ToTitleCase(rest)[k - 1 - n] && s[k] == rest[k - 1 - n];
          }
        }
      } else {
        TitleCaseKeepsSpace(s[1..]);
        assert r == [s[0]] + ToTitleCase(s[1..]);
        forall k | 1 <= k < |s|
          ensures r[k] == ToTitleCase(s[1..])[k - 1] && s[k] == s[1..][k - 1]
        {
        }
      }
    }
  }

  lemma {:induction false} RunLengthOfPrefix(word: string, tail: string)
    requires forall k :: 0 <= k < |word| ==> !IsSpace(word[k])
    requires tail == [] || IsSpace(tail[0])
    ensures RunLength(word + tail) == |word|
    decreases |word|
  {
    if word == [] {
      assert word + tail == tail;
    } else {
      assert (word + tail)[1..] == word[1..] + tail;
      RunLengthOfPrefix(word[1..], tail);
    }
  }

  /** Lower-casing a second time changes nothing. */
  lemma LowerAllIdempotent(s: string)
    ensures LowerAll(LowerAll(s)) == LowerAll(s)
  {
    forall k | 0 <= k < |s| ensures LowerAll(LowerAll(s))[k] == LowerAll(s)[k] {
      CaseKeepsClass(s[k]);
    }
  }

  /** A word character followed by a run without white space, then white space or the end, is title-cased as one word. */
  lemma TitleCaseOfPieces(c: char, word: string, tail: string)
    requires IsWordChar(c)
    requires forall k :: 0 <= k < |word| ==> !IsSpace(word[k])
    requires tail == [] || IsSpace(tail[0])
    ensures ToTitleCase([c] + word + tail) == [Upper(c)] + LowerAll(word) + ToTitleCase(tail)
  {
    var x := [c] + word + tail;
    assert x[0] == c && x[1..] == word + tail;
    RunLengthOfPrefix(word, tail);
    assert x[1..1 + |word|] == word && x[1 + |word|..] == tail;
  }

  /** Title casing a title-cased string keeps its first word and title-cases the rest again. */
  lemma TitleCaseWordAgain(s: string, n: nat)
    requires s != [] && IsWordChar(s[0])
    requires n == RunLength(s[1..])
    ensures ToTitleCase(ToTitleCase(s)) == [Upper(s[0])] + LowerAll(s[1..1 + n]) + ToTitleCase(ToTitleCase(s[1 + n..]))
  {
    var lowered := LowerAll(s[1..1 + n]);
    var rest := s[1 + n..];
    var t := ToTitleCase(rest);
    assert ToTitleCase(s) == [Upper(s[0])] + lowered + t;
    CaseKeepsClass(s[0]);
    forall k | 0 <= k < n ensures !IsSpace(lowered[k]) {
      assert !IsSpace(s[1..][k]);
      CaseKeepsClass(s[1..][k]);
    }
    if rest != [] {
      assert IsSpace(rest[0]) by { assert rest[0] == s[1..][n]; }
      TitleCaseKeepsSpace(rest);
    }
    TitleCaseOfPieces(Upper(s[0]), lowered, t);
    LowerAllIdempotent(s[1..1 + n]);
  }

  lemma {:induction false} TitleCaseIdempotent(s: string)
    ensures ToTitleCase(ToTitleCase(s)) == ToTitleCase(s)
    decreases |s|
  {
    if s != [] {
      if IsWordChar(s[0]) {
        var n := RunLength(s[1..]);
        TitleCaseWordAgain(s, n);
        TitleCaseIdempotent(s[1 + n..]);
      } else {
        var r := ToTitleCase(s);
        TitleCaseIdempotent(s[1..]);
        assert r == [s[0]] + ToTitleCase(s[1..]);
        assert r[1..] == ToTitleCase(s[1..]);
      }
    }
  }

  /**
   * A segment without white space that starts with a word character comes
   * out as its first character upper-cased and the rest lower-cased.
   */
  lemma TitleCaseOfWord(w: string)
    requires w != [] && IsWordChar(w[0])
    requires forall k :: 0 <= k < |w| ==> !IsSpace(w[k])
    ensures ToTitleCase(w) == [Upper(w[0])] + LowerAll(w[1..])
  {
    var n := RunLength(w[1..]);
    assert n == |w| - 1;
    assert w[1..1 + n] == w[1..];
    assert w[1 + n..] == [];
    assert ToTitleCase(w) == [Upper(w[0])] + LowerAll(w[1..1 + n]) + ToTitleCase(w[1 + n..]);
  }
}
