/**
 * The pure part of reading a project's metadata out of its markdown file
 * (src/lib/github.ts): choosing the file from a directory listing, splitting its
 * text into lines, and matching line index 2 against the description pattern and
 * line index 4 against the tags pattern. The listing is an input, and fetching
 * the chosen file is the parameter `download` (None stands for a response that
 * is not ok).
 */
module Markdown {
  import opened Options
  import opened JsString
  import opened Seqs

  /** One entry of a directory listing (`ProjectFile`). */
  datatype ProjectFile = ProjectFile(name: string, path: string, kind: string, downloadUrl: Option<string>)

  /** `file.download_url` is truthy: JavaScript treats both null and "" as false. */
  predicate HasDownloadUrl(f: ProjectFile)
  {
    f.downloadUrl.Some? && f.downloadUrl.value != ""
  }

  /** The predicate given to `files.find`. */
  predicate IsMarkdownCandidate(f: ProjectFile)
  {
    EndsWith(ToLower(f.name), ".md") && HasDownloadUrl(f)
  }

  /** `files[i]` is the first entry satisfying the `find` predicate. */
  predicate IsFirstCandidate(files: seq<ProjectFile>, i: int)
  {
    0 <= i < |files| && IsMarkdownCandidate(files[i])
    && forall j :: 0 <= j < i ==> !IsMarkdownCandidate(files[j])
  }

  /** `files.find(...)`: the first markdown file that has a download URL, if any. */
  function FindMarkdownFile(files: seq<ProjectFile>): (r: Option<ProjectFile>)
    ensures r.None? <==> forall i :: 0 <= i < |files| ==> !IsMarkdownCandidate(files[i])
    ensures r.Some? ==> exists i :: IsFirstCandidate(files, i) && files[i] == r.value
  {
    if files == [] then None
    else if IsMarkdownCandidate(files[0]) then
      assert IsFirstCandidate(files, 0);
      Some(files[0])
    else
      var r := FindMarkdownFile(files[1..]);
      if r.Some? then
        var i :| IsFirstCandidate(files[1..], i) && files[1..][i] == r.value;
        assert IsFirstCandidate(files, i + 1);
        r
      else
        r
  }

  // ---------------------------------------------------------------------------
  // The two patterns, hand-coded.
  //
  //   description: /\*\*Project?\s*Description?:\*\*\s*(.+)/i
  //   tags:        /\*\*Languages?\s*&\s*Technologies?:\*\*\s*(.+)/i
  //
  // The fixed heads need no backtracking: every optional letter and every `\s*`
  // in them is followed by a character that neither it nor whitespace can be
  // (`t?` by whitespace or `d`, `n?` and `s?` by `:`, `&` or whitespace), so
  // taking them greedily is the only way to match. The tail `\s*(.+)` does
  // backtrack, and `Capture` models that.
  // ---------------------------------------------------------------------------

  /** `t` begins with `lit` compared case-insensitively (`lit` is in lower case). */
  predicate StartsWithCI(t: string, lit: string)
  {
    |lit| <= |t| && ToLower(t[..|lit|]) == lit
  }

  /** An optional letter `c?` under the `i` flag: consumed when present. */
  function SkipOptional(t: string, c: char): string
  {
    if t != [] && LowerChar(t[0]) == c then t[1..] else t
  }

  /** The two line patterns of the markdown convention. */
  datatype Pattern = DescriptionLine | TagsLine

  /** Matches the fixed head of pattern `p` at the start of `t` and returns the text after it. */
  function HeadRest(p: Pattern, t: string): Option<string>
  {
    match p
    case DescriptionLine => DescriptionHead(t)
    case TagsLine => TagsHead(t)
  }

  /** `r` is what is left of `t` after a prefix. */
  predicate IsSuffix(r: string, t: string)
  {
    |r| <= |t| && r == t[|t| - |r|..]
  }

  /** `\*\*Projec` `t?` `\s*` `Descriptio` `n?` `:\*\*` */
  function DescriptionHead(t: string): (r: Option<string>)
    ensures r.Some? ==> IsSuffix(r.value, t) && |r.value| + 21 <= |t|
  {
    if !StartsWithCI(t, "**projec") then None
    else
      var a := TrimStart(SkipOptional(t[8..], 't'));
      if !StartsWithCI(a, "descriptio") then None
      else
        var b := SkipOptional(a[10..], 'n');
        if StartsWithCI(b, ":**") then Some(b[3..]) else None
  }

  /** `\*\*Language` `s?` `\s*` `&` `\s*`, then the rest of the head */
  function TagsHead(t: string): (r: Option<string>)
    ensures r.Some? ==> IsSuffix(r.value, t) && |r.value| + 25 <= |t|
  {
    if !StartsWithCI(t, "**language") then None
    else
      var a := TrimStart(SkipOptional(t[10..], 's'));
      if !StartsWithCI(a, "&") then None
      else TechnologiesHead(TrimStart(a[1..]))
  }

  /** `Technologie` `s?` `:\*\*` */
  function TechnologiesHead(b: string): (r: Option<string>)
    ensures r.Some? ==> IsSuffix(r.value, b) && |r.value| + 14 <= |b|
  {
    if !StartsWithCI(b, "technologie") then None
    else
      var c := SkipOptional(b[11..], 's');
      if StartsWithCI(c, ":**") then Some(c[3..]) else None
  }

  /** What a greedy `.+` takes from `u`: its longest prefix without a line terminator. */
  function TakeLine(u: string): (c: string)
    ensures |c| <= |u| && c == u[..|c|]
    ensures forall i :: 0 <= i < |c| ==> !IsLineTerminator(c[i])
    ensures |c| < |u| ==> IsLineTerminator(u[|c|])
  {
    if u != [] && !IsLineTerminator(u[0]) then [u[0]] + TakeLine(u[1..]) else []
  }

  /** The group `(.+)` starts at position `j` of `r`, the latest position at or before
      `k` where `.` can match. */
  predicate CaptureStartsAt(r: string, k: nat, j: int)
  {
    0 <= j <= k && j < |r| && !IsLineTerminator(r[j])
    && forall i :: j < i <= k && i < |r| ==> IsLineTerminator(r[i])
  }

  /** `\s*` holding `k` characters, then giving them back one at a time until `.+` matches. */
  function Backtrack(r: string, k: nat): (c: Option<string>)
    requires k <= |r|
    ensures c.None? <==> forall i :: 0 <= i <= k && i < |r| ==> IsLineTerminator(r[i])
    ensures c.Some? ==> exists j :: CaptureStartsAt(r, k, j) && c.value == TakeLine(r[j..])
    decreases k
  {
    if k < |r| && !IsLineTerminator(r[k]) then
      assert CaptureStartsAt(r, k, k);
      Some(TakeLine(r[k..]))
    else if k == 0 then None
    else
      var c := Backtrack(r, k - 1);
      if c.Some? then
        var j :| CaptureStartsAt(r, k - 1, j) && c.value == TakeLine(r[j..]);
        assert CaptureStartsAt(r, k, j);
        c
      else
        c
  }

  /** The tail `\s*(.+)` of both patterns, applied to the text after the head; the
      result is group 1. It is never empty and holds no line terminator. */
  function Capture(r: string): (c: Option<string>)
    ensures c.Some? ==> c.value != [] && forall i :: 0 <= i < |c.value| ==> !IsLineTerminator(c.value[i])
    ensures c.None? <==> forall i :: 0 <= i <= LeadingWs(r) && i < |r| ==> IsLineTerminator(r[i])
  {
    Backtrack(r, LeadingWs(r))
  }

  /** Pattern `p` matched at the very start of `t`; the result is group 1. */
  function MatchAt(p: Pattern, t: string): (r: Option<string>)
    ensures r.Some? ==> HeadRest(p, t).Some?
    ensures r.Some? ==> r.value != [] && forall i :: 0 <= i < |r.value| ==> !IsLineTerminator(r.value[i])
  {
    match HeadRest(p, t)
    case None => None
    case Some(rest) => Capture(rest)
  }

  /** `line.match(pattern)[1]`: the pattern is not anchored, so the leftmost
      position where it matches gives the group. */
  function Search(p: Pattern, t: string): (r: Option<string>)
    ensures r.Some? ==> r.value != [] && forall i :: 0 <= i < |r.value| ==> !IsLineTerminator(r.value[i])
    decreases |t|
  {
    if MatchAt(p, t).Some? then MatchAt(p, t)
    else if t == [] then None
    else Search(p, t[1..])
  }

  // ---------------------------------------------------------------------------
  // From the captured group to the tag list.
  // ---------------------------------------------------------------------------

  /** `.map((tag) => tag.trim())` */
  function TrimAll(parts: seq<string>): (r: seq<string>)
    ensures |r| == |parts|
    ensures forall i :: 0 <= i < |parts| ==> r[i] == Trim(parts[i])
  {
    if parts == [] then [] else [Trim(parts[0])] + TrimAll(parts[1..])
  }

  /** `.filter((tag) => tag.length > 0)`: the non-empty strings, in order, as often as they occur. */
  function DropEmpty(xs: seq<string>): (r: seq<string>)
    ensures IsSubsequence(r, xs)
    ensures forall i :: 0 <= i < |r| ==> r[i] != "" && r[i] in xs
    ensures forall x :: x != "" ==> multiset(r)[x] == multiset(xs)[x]
  {
    if xs == [] then []
    else
      assert xs == [xs[0]] + xs[1..];
      if xs[0] != "" then [xs[0]] + DropEmpty(xs[1..]) else DropEmpty(xs[1..])
  }

  /** The tags in a captured group: split on commas, trim each piece, drop empty pieces. */
  function SplitTags(capture: string): (tags: seq<string>)
    ensures forall i :: 0 <= i < |tags| ==> tags[i] != "" && IsTrimmed(tags[i])
  {
    DropEmpty(TrimAll(Split(capture, ',')))
  }

  // ---------------------------------------------------------------------------
  // From the file text to the metadata, and from the listing to the file text.
  // ---------------------------------------------------------------------------

  /** `content.split("\n")` */
  function Lines(content: string): (lines: seq<string>)
    ensures |lines| >= 1 && forall i :: 0 <= i < |lines| ==> '\n' !in lines[i]
    ensures Join(lines, "\n") == content
  {
    JoinSplit(content, '\n');
    Split(content, '\n')
  }

  /** Lines 82-96 of `extractDescriptionFromProject`: line index 2 against the
      description pattern, group 1 returned as it is (not trimmed), "" otherwise. */
  function DescriptionFromText(content: string): (d: string)
    ensures |Lines(content)| < 3 ==> d == ""
    ensures forall i :: 0 <= i < |d| ==> !IsLineTerminator(d[i])
  {
    var lines := Lines(content);
    if |lines| >= 3 then
      match Search(DescriptionLine, lines[2])
      case Some(desc) => desc
      case None => ""
    else ""
  }

  /** Lines 134-152 of `extractTagsFromProject`: line index 4 against the tags
      pattern, group 1 split into tags, [] otherwise. */
  function TagsFromText(content: string): (tags: seq<string>)
    ensures |Lines(content)| < 5 ==> tags == []
    ensures forall i :: 0 <= i < |tags| ==> tags[i] != "" && IsTrimmed(tags[i])
  {
    var lines := Lines(content);
    if |lines| >= 5 then
      match Search(TagsLine, lines[4])
      case Some(group) => SplitTags(group)
      case None => []
    else []
  }

  /** `extractDescriptionFromProject` given the listing of the project directory:
      no markdown file, or a download that fails, gives "". */
  function ExtractDescription(files: seq<ProjectFile>, download: string -> Option<string>): (d: string)
    ensures (forall i :: 0 <= i < |files| ==> !IsMarkdownCandidate(files[i])) ==> d == ""
  {
    match FindMarkdownFile(files)
    case None => ""
    case Some(file) =>
      // the second `!markdownFile.download_url` check cannot fail after `find`
      match download(file.downloadUrl.value)
      case None => ""
      case Some(content) => DescriptionFromText(content)
  }

  /** `extractTagsFromProject` given the listing of the project directory:
      no markdown file, or a download that fails, gives []. */
  function ExtractTags(files: seq<ProjectFile>, download: string -> Option<string>): (tags: seq<string>)
    ensures (forall i :: 0 <= i < |files| ==> !IsMarkdownCandidate(files[i])) ==> tags == []
  {
    match FindMarkdownFile(files)
    case None => []
    case Some(file) =>
      match download(file.downloadUrl.value)
      case None => []
      case Some(content) => TagsFromText(content)
  }
}

module MarkdownLemmas {
  import opened Options
  import opened JsString
  import opened Markdown

  // ---------------------------------------------------------------------------
  // The search is the leftmost match.
  // ---------------------------------------------------------------------------

  /** Position `i` is the leftmost one at which pattern `p` matches `t`. */
  predicate IsLeftmostMatch(p: Pattern, t: string, i: int)
  {
    0 <= i <= |t| && MatchAt(p, t[i..]).Some?
    && forall j :: 0 <= j < i ==> MatchAt(p, t[j..]).None?
  }

  /** `match` fails exactly when no position matches, and otherwise returns the
      group of the leftmost matching position. */
  lemma {:induction false} SearchIsLeftmost(p: Pattern, t: string)
    ensures Search(p, t).None? <==> forall i :: 0 <= i <= |t| ==> MatchAt(p, t[i..]).None?
    ensures Search(p, t).Some? ==> exists i :: IsLeftmostMatch(p, t, i) && Search(p, t) == MatchAt(p, t[i..])
    decreases |t|
  {
    assert t[0..] == t;
    if MatchAt(p, t).Some? {
      assert IsLeftmostMatch(p, t, 0);
    } else if t != [] {
      SearchIsLeftmost(p, t[1..]);
      if Search(p, t[1..]).Some? {
        var i :| IsLeftmostMatch(p, t[1..], i) && Search(p, t[1..]) == MatchAt(p, t[1..][i..]);
        LeftmostShift(p, t, i);
      } else {
        NoMatchShift(p, t);
      }
    }
  }

  /** Past a position where nothing matches, the leftmost match of the rest is the
      leftmost match of the whole. */
  lemma LeftmostShift(p: Pattern, t: string, i: int)
    requires t != [] && MatchAt(p, t).None? && IsLeftmostMatch(p, t[1..], i)
    ensures IsLeftmostMatch(p, t, i + 1) && MatchAt(p, t[1..][i..]) == MatchAt(p, t[i + 1..])
  {
    assert t[1..][i..] == t[i + 1..];
    assert t[0..] == t;
    forall j | 1 <= j < i + 1
      ensures MatchAt(p, t[j..]).None?
    {
      assert t[1..][j - 1..] == t[j..];
    }
  }

  /** Nothing matches anywhere when nothing matches at the first position nor in the rest. */
  lemma NoMatchShift(p: Pattern, t: string)
    requires t != [] && MatchAt(p, t).None?
    requires forall i :: 0 <= i <= |t[1..]| ==> MatchAt(p, t[1..][i..]).None?
    ensures forall i :: 0 <= i <= |t| ==> MatchAt(p, t[i..]).None?
  {
    assert t[0..] == t;
    forall i | 1 <= i <= |t|
      ensures MatchAt(p, t[i..]).None?
    {
      assert t[1..][i - 1..] == t[i..];
    }
  }

  // ---------------------------------------------------------------------------
  // The pattern is not anchored: text without `*` in front of it changes nothing.
  // ---------------------------------------------------------------------------

  lemma NoMatchWithoutStar(p: Pattern, t: string)
    requires t != [] && t[0] != '*'
    ensures MatchAt(p, t).None?
  {
    if p.DescriptionLine? {
      NoStarNoLiteral(t, "**projec");
      assert DescriptionHead(t).None?;
    } else {
      NoStarNoLiteral(t, "**language");
      assert TagsHead(t).None?;
    }
  }

  /** A text whose first character is not `*` does not start with a literal that does. */
  lemma NoStarNoLiteral(t: string, lit: string)
    requires t != [] && t[0] != '*' && lit != [] && lit[0] == '*'
    ensures !StartsWithCI(t, lit)
  {
    if |lit| <= |t| {
      assert ToLower(t[..|lit|])[0] == LowerChar(t[0]);
    }
  }

  lemma {:induction false} SearchSkipsPrefix(p: Pattern, x: string, t: string)
    requires '*' !in x
    ensures Search(p, x + t) == Search(p, t)
    decreases |x|
  {
    if x != [] {
      NoMatchWithoutStar(p, x + t);
      assert (x + t)[1..] == x[1..] + t;
      SearchSkipsPrefix(p, x[1..], t);
    } else {
      assert x + t == t;
    }
  }

  // ---------------------------------------------------------------------------
  // The `i` flag: lower-casing the line lower-cases the group and changes nothing else.
  // ---------------------------------------------------------------------------

  function LowerOpt(o: Option<string>): Option<string>
  {
    match o
    case None => None
    case Some(v) => Some(ToLower(v))
  }

  lemma {:induction false} LeadingWsLower(s: string)
    ensures LeadingWs(ToLower(s)) == LeadingWs(s)
  {
    if s != [] {
      LowerCharKeepsClasses(s[0]);
      ToLowerSlice(s, 1, |s|);
      LeadingWsLower(s[1..]);
    }
  }

  lemma TrimStartLower(s: string)
    ensures TrimStart(ToLower(s)) == ToLower(TrimStart(s))
  {
    LeadingWsLower(s);
    ToLowerSlice(s, LeadingWs(s), |s|);
  }

  lemma StartsWithCILower(t: string, lit: string)
    ensures StartsWithCI(ToLower(t), lit) == StartsWithCI(t, lit)
  {
    if |lit| <= |t| {
      ToLowerSlice(t, 0, |lit|);
      ToLowerIdempotent(t[..|lit|]);
    }
  }

  lemma SkipOptionalLower(t: string, c: char)
    ensures SkipOptional(ToLower(t), c) == ToLower(SkipOptional(t, c))
  {
    if t != [] {
      LowerCharKeepsClasses(t[0]);
      ToLowerSlice(t, 1, |t|);
    }
  }

  lemma DescriptionHeadLower(t: string)
    ensures DescriptionHead(ToLower(t)) == LowerOpt(DescriptionHead(t))
  {
    StartsWithCILower(t, "**projec");
    if StartsWithCI(t, "**projec") {
      SliceLower(t, 8);
      SkipOptionalLower(t[8..], 't');
      var a := TrimStart(SkipOptional(t[8..], 't'));
      TrimStartLower(SkipOptional(t[8..], 't'));
      StartsWithCILower(a, "descriptio");
      if StartsWithCI(a, "descriptio") {
        SliceLower(a, 10);
        SkipOptionalLower(a[10..], 'n');
        var b := SkipOptional(a[10..], 'n');
        StartsWithCILower(b, ":**");
        if StartsWithCI(b, ":**") {
          SliceLower(b, 3);
        }
      }
    }
  }

  lemma TechnologiesHeadLower(b: string)
    ensures TechnologiesHead(ToLower(b)) == LowerOpt(TechnologiesHead(b))
  {
    StartsWithCILower(b, "technologie");
    if StartsWithCI(b, "technologie") {
      SliceLower(b, 11);
      SkipOptionalLower(b[11..], 's');
      var c := SkipOptional(b[11..], 's');
      StartsWithCILower(c, ":**");
      if StartsWithCI(c, ":**") {
        SliceLower(c, 3);
      }
    }
  }

  lemma TagsHeadLower(t: string)
    ensures TagsHead(ToLower(t)) == LowerOpt(TagsHead(t))
  {
    StartsWithCILower(t, "**language");
    if StartsWithCI(t, "**language") {
      SliceLower(t, 10);
      SkipOptionalLower(t[10..], 's');
      var a := TrimStart(SkipOptional(t[10..], 's'));
      TrimStartLower(SkipOptional(t[10..], 's'));
      StartsWithCILower(a, "&");
      if StartsWithCI(a, "&") {
        SliceLower(a, 1);
        TrimStartLower(a[1..]);
        TechnologiesHeadLower(TrimStart(a[1..]));
      }
    }
  }

  lemma HeadRestLower(p: Pattern, t: string)
    ensures HeadRest(p, ToLower(t)) == LowerOpt(HeadRest(p, t))
  {
    match p
    case DescriptionLine => DescriptionHeadLower(t);
    case TagsLine => TagsHeadLower(t);
  }

  lemma {:induction false} TakeLineLower(u: string)
    ensures TakeLine(ToLower(u)) == ToLower(TakeLine(u))
  {
    if u != [] {
      LowerCharKeepsClasses(u[0]);
      SliceLower(u, 1);
      TakeLineLower(u[1..]);
      if !IsLineTerminator(u[0]) {
        ToLowerConcat([u[0]], TakeLine(u[1..]));
      }
    }
  }

  lemma {:induction false} BacktrackLower(r: string, k: nat)
    requires k <= |r|
    ensures Backtrack(ToLower(r), k) == LowerOpt(Backtrack(r, k))
    decreases k
  {
    var lr := ToLower(r);
    if k < |r| {
      LowerCharKeepsClasses(r[k]);
      assert lr[k] == LowerChar(r[k]);
    }
    if k < |r| && !IsLineTerminator(r[k]) {
      SliceLower(r, k);
      TakeLineLower(r[k..]);
      BacktrackHere(r, k);
      BacktrackHere(lr, k);
    } else if k == 0 {
      BacktrackNone(r);
      BacktrackNone(lr);
    } else {
      BacktrackEarlier(r, k);
      BacktrackEarlier(lr, k);
      BacktrackLower(r, k - 1);
    }
  }

  lemma BacktrackHere(r: string, k: nat)
    requires k < |r| && !IsLineTerminator(r[k])
    ensures Backtrack(r, k) == Some(TakeLine(r[k..]))
  {
  }

  lemma BacktrackNone(r: string)
    requires r == [] || IsLineTerminator(r[0])
    ensures Backtrack(r, 0) == None
  {
  }

  lemma BacktrackEarlier(r: string, k: nat)
    requires 0 < k <= |r| && !(k < |r| && !IsLineTerminator(r[k]))
    ensures Backtrack(r, k) == Backtrack(r, k - 1)
  {
  }

  lemma MatchAtLower(p: Pattern, t: string)
    ensures MatchAt(p, ToLower(t)) == LowerOpt(MatchAt(p, t))
  {
    HeadRestLower(p, t);
    if HeadRest(p, t).Some? {
      var rest := HeadRest(p, t).value;
      LeadingWsLower(rest);
      BacktrackLower(rest, LeadingWs(rest));
    }
  }

  /** Both patterns are case-insensitive: matching a lower-cased line gives the
      lower-cased group, and fails exactly when matching the line fails. */
  lemma {:induction false} SearchIgnoresCase(p: Pattern, t: string)
    ensures Search(p, ToLower(t)) == LowerOpt(Search(p, t))
    decreases |t|
  {
    MatchAtLower(p, t);
    if MatchAt(p, t).None? && t != [] {
      SliceLower(t, 1);
      SearchIgnoresCase(p, t[1..]);
    }
  }

  /** Two spellings of a line that differ only in letter case match alike. */
  lemma SearchCaseInsensitive(p: Pattern, t1: string, t2: string)
    requires ToLower(t1) == ToLower(t2)
    ensures Search(p, t1).Some? <==> Search(p, t2).Some?
    ensures Search(p, t1).Some? ==> ToLower(Search(p, t1).value) == ToLower(Search(p, t2).value)
  {
    SearchIgnoresCase(p, t1);
    SearchIgnoresCase(p, t2);
  }

  // ---------------------------------------------------------------------------
  // What a matching line yields.
  // ---------------------------------------------------------------------------

  lemma {:induction false} TakeLineWhole(u: string)
    requires forall i :: 0 <= i < |u| ==> !IsLineTerminator(u[i])
    ensures TakeLine(u) == u
  {
    assert u[..|u|] == u;
  }

  /** When the text after the head, past its leading whitespace, starts with a
      character `.` accepts, the group is exactly the rest of the line from there. */
  lemma CaptureAfterWhitespace(r: string)
    requires TrimStart(r) != [] && !IsLineTerminator(TrimStart(r)[0])
    ensures Capture(r) == Some(TakeLine(TrimStart(r)))
  {
  }

  /** The tail `\s*(.+)` applied to whitespace and then a one-line text that starts
      with something other than whitespace gives that text, its trailing
      whitespace included. */
  lemma CaptureOf(w: string, c: string)
    requires AllWhitespace(w)
    requires c != [] && !IsWhitespace(c[0])
    requires forall i :: 0 <= i < |c| ==> !IsLineTerminator(c[i])
    ensures Capture(w + c) == Some(c)
  {
    LeadingWsOf(w, c);
    assert (w + c)[|w|..] == c;
    TakeLineWhole(c);
  }

  /** Case-insensitive `lit` followed by `u`. */
  lemma LiteralThen(h: string, u: string, n: nat, lit: string)
    requires n <= |h| && ToLower(h)[..n] == lit
    ensures StartsWithCI(h + u, lit)
    ensures (h + u)[n..] == h[n..] + u
  {
    PrefixOfConcat(h, u, n);
    ToLowerSlice(h, 0, n);
    assert h[0..n] == h[..n];
  }

  lemma PrefixOfConcat(h: string, u: string, n: nat)
    requires n <= |h|
    ensures (h + u)[..n] == h[..n]
    ensures (h + u)[n..] == h[n..] + u
  {
  }

  lemma OptionalThen(h: string, n: nat, u: string, c: char)
    requires n < |h| && ToLower(h)[n] == c
    ensures SkipOptional(h[n..] + u, c) == h[n + 1..] + u
  {
    var t := h[n..] + u;
    assert t[0] == h[n];
    PrefixOfConcat(h[n..], u, 1);
    assert h[n..][1..] == h[n + 1..];
  }

  /** `lower` is a (lower-case) spelling of `h` ending the rest of the line `h + u`. */
  lemma LiteralEnds(h: string, u: string, lit: string)
    requires ToLower(h) == lit
    ensures StartsWithCI(h + u, lit) && (h + u)[|lit|..] == u
  {
    LiteralThen(h, u, |h|, lit);
    assert h[|h|..] == [];
    assert [] + u == u;
  }

  /** Whitespace in front of a character that is not whitespace is skipped. */
  lemma SkipWhitespace(w: string, a: string)
    requires AllWhitespace(w) && a != [] && !IsWhitespace(a[0])
    ensures TrimStart(w + a) == a
  {
    LeadingWsOf(w, a);
    PrefixOfConcat(w, a, |w|);
    assert w[|w|..] == [];
  }

  lemma DescriptionHeadSteps(t: string, u: string, a: string, b: string, rest: string)
    requires StartsWithCI(t, "**projec") && SkipOptional(t[8..], 't') == u && TrimStart(u) == a
    requires StartsWithCI(a, "descriptio") && SkipOptional(a[10..], 'n') == b
    requires StartsWithCI(b, ":**") && b[3..] == rest
    ensures DescriptionHead(t) == Some(rest)
  {
  }

  /** A word of a head whose lower-casing is `pre`, then the optional `c`, then `tail`:
      `pre` is matched, `c` skipped, and what is left is the rest of the word. */
  lemma HeadWord(h: string, u: string, pre: string, c: char, tail: string)
    requires ToLower(h) == pre + [c] + tail
    ensures StartsWithCI(h + u, pre)
    ensures SkipOptional((h + u)[|pre|..], c) == h[|pre| + 1..] + u
    ensures ToLower(h[|pre| + 1..]) == tail
  {
    var n := |pre|;
    assert ToLower(h)[..n] == pre;
    LiteralThen(h, u, n, pre);
    assert ToLower(h)[n] == c;
    OptionalThen(h, n, u, c);
    ToLowerSlice(h, n + 1, |h|);
    assert ToLower(h)[n + 1..] == tail;
  }

  /** The same word spelt without its optional letter: `pre` is matched and, as the
      next character is not `c`, nothing is skipped. */
  lemma HeadWordShort(h: string, u: string, pre: string, c: char, tail: string)
    requires ToLower(h) == pre + tail
    requires if tail != [] then tail[0] != c else u == [] || LowerChar(u[0]) != c
    ensures StartsWithCI(h + u, pre)
    ensures SkipOptional((h + u)[|pre|..], c) == h[|pre|..] + u
    ensures ToLower(h[|pre|..]) == tail
  {
    var n := |pre|;
    assert ToLower(h)[..n] == pre;
    LiteralThen(h, u, n, pre);
    ToLowerSlice(h, n, |h|);
    assert ToLower(h)[n..] == tail;
    if tail != [] {
      assert (h[n..] + u)[0] == h[n];
      assert LowerChar(h[n]) == ToLower(h)[n] == tail[0];
    } else {
      assert h[n..] + u == u;
    }
  }

  /** Whitespace, or else a first character whose lower-casing is not `c`, comes first. */
  lemma FirstLowerNot(w: string, a: string, c: char)
    requires AllWhitespace(w) && a != [] && LowerChar(a[0]) != c && !IsWhitespace(c)
    ensures LowerChar((w + a)[0]) != c
  {
    if w != [] {
      LowerCharKeepsClasses(w[0]);
    }
  }

  lemma ProjectSpelled()
    ensures "**project" == "**projec" + ['t'] + []
  {
  }

  lemma DescriptionSpelled()
    ensures "description:**" == "descriptio" + ['n'] + ":**"
    ensures "descriptio:**" == "descriptio" + ":**"
  {
  }

  lemma LanguagesSpelled()
    ensures "**languages" == "**language" + ['s'] + []
  {
  }

  lemma TechnologiesSpelled()
    ensures "technologies:**" == "technologie" + ['s'] + ":**"
    ensures "technologie:**" == "technologie" + ":**"
  {
  }

  /** The spellings `Project?` accepts, lower-cased. */
  predicate IsProjectWord(h: string)
  {
    ToLower(h) == "**project" || ToLower(h) == "**projec"
  }

  /** The spellings `Description?:\*\*` accepts, lower-cased. */
  predicate IsDescriptionWord(h: string)
  {
    ToLower(h) == "description:**" || ToLower(h) == "descriptio:**"
  }

  /** The spellings `Languages?` accepts, lower-cased. */
  predicate IsLanguagesWord(h: string)
  {
    ToLower(h) == "**languages" || ToLower(h) == "**language"
  }

  /** The spellings `Technologies?:\*\*` accepts, lower-cased. */
  predicate IsTechnologiesWord(h: string)
  {
    ToLower(h) == "technologies:**" || ToLower(h) == "technologie:**"
  }

  /** `**Project` or `**Projec` in any letter case: `**projec` matched, the optional
      `t` skipped when present. */
  lemma ProjectWord(h1: string, u: string)
    requires IsProjectWord(h1) && (u == [] || LowerChar(u[0]) != 't')
    ensures StartsWithCI(h1 + u, "**projec") && SkipOptional((h1 + u)[8..], 't') == u
  {
    if ToLower(h1) == "**project" {
      ProjectSpelled();
      HeadWord(h1, u, "**projec", 't', []);
      assert h1[9..] + u == u;
    } else {
      assert "**projec" == "**projec" + [];
      HeadWordShort(h1, u, "**projec", 't', []);
      assert h1[8..] + u == u;
    }
  }

  /** `Description:**` or `Descriptio:**` in any letter case: it starts with `d`,
      `descriptio` is matched, the optional `n` skipped when present, then `:**`. */
  lemma DescriptionWord(h2: string, rest: string)
    requires IsDescriptionWord(h2)
    ensures |h2| >= 3
    ensures StartsWithCI(h2 + rest, "descriptio")
    ensures SkipOptional((h2 + rest)[10..], 'n') == h2[|h2| - 3..] + rest
    ensures StartsWithCI(h2[|h2| - 3..] + rest, ":**") && (h2[|h2| - 3..] + rest)[3..] == rest
    ensures LowerChar((h2 + rest)[0]) == 'd'
  {
    assert ToLower(h2)[0] == 'd';
    DescriptionSpelled();
    if ToLower(h2) == "description:**" {
      HeadWord(h2, rest, "descriptio", 'n', ":**");
    } else {
      HeadWordShort(h2, rest, "descriptio", 'n', ":**");
    }
    LiteralEnds(h2[|h2| - 3..], rest, ":**");
  }

  /** A head spelled `**Project`, whitespace, `Description:**`, each word with or
      without its optional letter and in any letter case, is recognised and leaves
      the rest of the line. */
  lemma DescriptionHeadOf(h1: string, w0: string, h2: string, rest: string)
    requires IsProjectWord(h1) && AllWhitespace(w0) && IsDescriptionWord(h2)
    ensures HeadRest(DescriptionLine, h1 + w0 + h2 + rest) == Some(rest)
  {
    var a := h2 + rest;
    var u := w0 + a;
    var t := h1 + u;
    DescriptionHeadRegroup(h1, w0, h2, rest);
    DescriptionWord(h2, rest);
    FirstLowerNot(w0, a, 't');
    ProjectWord(h1, u);
    LowerCharKeepsClasses(a[0]);
    SkipWhitespace(w0, a);
    DescriptionHeadSteps(t, u, a, h2[|h2| - 3..] + rest, rest);
  }

  lemma TagsHeadSteps(t: string, u: string, a: string, v: string, b: string)
    requires StartsWithCI(t, "**language") && SkipOptional(t[10..], 's') == u && TrimStart(u) == a
    requires StartsWithCI(a, "&") && a[1..] == v && TrimStart(v) == b
    ensures TagsHead(t) == TechnologiesHead(b)
  {
  }

  lemma TechnologiesHeadSteps(b: string, c: string, rest: string)
    requires StartsWithCI(b, "technologie") && SkipOptional(b[11..], 's') == c
    requires StartsWithCI(c, ":**") && c[3..] == rest
    ensures TechnologiesHead(b) == Some(rest)
  {
  }

  /** `Technologies:**` or `Technologie:**` in any letter case starts with a
      character that is not whitespace, and is recognised. */
  lemma TechnologiesHeadOf(h2: string, rest: string)
    requires IsTechnologiesWord(h2)
    ensures TechnologiesHead(h2 + rest) == Some(rest)
    ensures !IsWhitespace((h2 + rest)[0])
  {
    assert ToLower(h2)[0] == 't';
    LowerCharKeepsClasses(h2[0]);
    TechnologiesSpelled();
    if ToLower(h2) == "technologies:**" {
      HeadWord(h2, rest, "technologie", 's', ":**");
    } else {
      HeadWordShort(h2, rest, "technologie", 's', ":**");
    }
    var c := h2[|h2| - 3..] + rest;
    LiteralEnds(h2[|h2| - 3..], rest, ":**");
    TechnologiesHeadSteps(h2 + rest, c, rest);
  }

  /** `**Languages` or `**Language` in any letter case: `**language` matched, the
      optional `s` skipped when present. */
  lemma LanguagesWord(h1: string, u: string)
    requires IsLanguagesWord(h1) && (u == [] || LowerChar(u[0]) != 's')
    ensures StartsWithCI(h1 + u, "**language") && SkipOptional((h1 + u)[10..], 's') == u
  {
    if ToLower(h1) == "**languages" {
      LanguagesSpelled();
      HeadWord(h1, u, "**language", 's', []);
      assert h1[11..] + u == u;
    } else {
      assert "**language" == "**language" + [];
      HeadWordShort(h1, u, "**language", 's', []);
      assert h1[10..] + u == u;
    }
  }

  lemma AmpersandThen(v: string)
    ensures StartsWithCI("&" + v, "&") && ("&" + v)[1..] == v
    ensures LowerChar(("&" + v)[0]) == '&'
  {
    assert ToLower("&") == "&";
    LiteralEnds("&", v, "&");
  }

  lemma TagsHeadRegroup(h1: string, w0: string, a: string, w1: string, h2: string, rest: string)
    ensures h1 + w0 + a + w1 + h2 + rest == h1 + (w0 + (a + (w1 + (h2 + rest))))
  {
  }

  lemma DescriptionHeadRegroup(h1: string, w0: string, h2: string, rest: string)
    ensures h1 + w0 + h2 + rest == h1 + (w0 + (h2 + rest))
  {
  }

  /** The part of the tags head in front of `Technologies?:**`: `**Languages`,
      whitespace, `&`, whitespace, with or without the optional `s` and in any
      letter case, is consumed, and what follows is looked up as `Technologies?:**`. */
  lemma LanguagesAmpersand(h1: string, w0: string, w1: string, b: string)
    requires IsLanguagesWord(h1) && AllWhitespace(w0) && AllWhitespace(w1)
    requires b != [] && !IsWhitespace(b[0])
    ensures TagsHead(h1 + w0 + "&" + w1 + b) == TechnologiesHead(b)
  {
    var v := w1 + b;
    var a := "&" + v;
    var u := w0 + a;
    var t := h1 + u;
    assert h1 + w0 + "&" + w1 + b == t by {
      TagsHeadRegroup(h1, w0, "&", w1, b, []);
      assert b + [] == b;
      assert w1 + b + [] == w1 + b;
      assert h1 + w0 + "&" + w1 + b + [] == h1 + w0 + "&" + w1 + b;
    }
    AmpersandThen(v);
    FirstLowerNot(w0, a, 's');
    LanguagesWord(h1, u);
    SkipWhitespace(w0, a);
    SkipWhitespace(w1, b);
    TagsHeadSteps(t, u, a, v, b);
  }

  /** A head spelled `**Languages`, whitespace, `&`, whitespace, `Technologies:**`,
      each word with or without its optional `s` and in any letter case, is
      recognised and leaves the rest of the line. */
  lemma TagsHeadOf(h1: string, w0: string, w1: string, h2: string, rest: string)
    requires IsLanguagesWord(h1) && AllWhitespace(w0) && AllWhitespace(w1)
    requires IsTechnologiesWord(h2)
    ensures HeadRest(TagsLine, h1 + w0 + "&" + w1 + h2 + rest) == Some(rest)
  {
    TechnologiesHeadOf(h2, rest);
    LanguagesAmpersand(h1, w0, w1, h2 + rest);
    TagsTailRegroup(h1 + w0 + "&" + w1, h2, rest);
  }

  lemma TagsTailRegroup(x: string, h2: string, rest: string)
    ensures x + h2 + rest == x + (h2 + rest)
  {
  }

  /** `**Projects` is not a spelling of the head: after `**projec` and `t`, the `s`
      is neither whitespace nor the start of `descriptio`, so nothing matches here. */
  lemma ProjectsRejected(h1: string, u: string)
    requires ToLower(h1) == "**projects"
    ensures HeadRest(DescriptionLine, h1 + u) == None
  {
    ProjectsWord(h1, u);
    var m := h1[9..] + u;
    NotDescriptio(m);
    DescriptionHeadStops(h1 + u, m);
  }

  lemma ProjectsWord(h1: string, u: string)
    requires ToLower(h1) == "**projects"
    ensures StartsWithCI(h1 + u, "**projec") && SkipOptional((h1 + u)[8..], 't') == h1[9..] + u
    ensures (h1[9..] + u) != [] && LowerChar((h1[9..] + u)[0]) == 's'
  {
    assert "**projects" == "**projec" + ['t'] + "s";
    HeadWord(h1, u, "**projec", 't', "s");
    assert ToLower(h1[9..])[0] == LowerChar(h1[9..][0]);
  }

  /** Text starting with a letter `s` is its own trimmed form and does not start
      with `descriptio`. */
  lemma NotDescriptio(m: string)
    requires m != [] && LowerChar(m[0]) == 's'
    ensures TrimStart(m) == m && !StartsWithCI(m, "descriptio")
  {
    LowerCharKeepsClasses(m[0]);
    SkipWhitespace([], m);
    assert [] + m == m;
    if |m| >= 10 {
      assert ToLower(m[..10])[0] == LowerChar(m[0]);
    }
  }

  lemma DescriptionHeadStops(t: string, a: string)
    requires StartsWithCI(t, "**projec") && TrimStart(SkipOptional(t[8..], 't')) == a
    requires !StartsWithCI(a, "descriptio")
    ensures DescriptionHead(t) == None
  {
  }

  /** `Technology:**` is not a spelling of `Technologies?:**`: after `technolog` a
      `y` stands where `i` is needed. */
  lemma TechnologyRejected(h2: string, rest: string)
    requires ToLower(h2) == "technology:**"
    ensures TechnologiesHead(h2 + rest) == None
  {
    var b := h2 + rest;
    if |b| >= 11 {
      assert b[9] == h2[9];
      assert ToLower(b[..11])[9] == LowerChar(b[9]) == ToLower(h2)[9] == 'y';
      assert "technologie"[9] == 'i';
    }
  }

  /** A tags line whose head says `Technology:**` does not match at that position. */
  lemma TagsHeadRejectsTechnology(h1: string, w0: string, w1: string, h2: string, rest: string)
    requires IsLanguagesWord(h1) && AllWhitespace(w0) && AllWhitespace(w1)
    requires ToLower(h2) == "technology:**"
    ensures HeadRest(TagsLine, h1 + w0 + "&" + w1 + h2 + rest) == None
  {
    assert ToLower(h2)[0] == 't';
    LowerCharKeepsClasses(h2[0]);
    TechnologyRejected(h2, rest);
    LanguagesAmpersand(h1, w0, w1, h2 + rest);
    TagsTailRegroup(h1 + w0 + "&" + w1, h2, rest);
  }

  // ---------------------------------------------------------------------------
  // The converse: a recognised head is one of the spellings the patterns accept.
  // ---------------------------------------------------------------------------

  /** What `pre` then an optional `c` consumed from `t`: the word `h`, lower-casing to
      `pre` with or without `c`. */
  lemma OptionalWordSplit(t: string, pre: string, c: char) returns (h: string)
    requires StartsWithCI(t, pre)
    ensures ToLower(h) == pre + [c] || ToLower(h) == pre
    ensures t == h + SkipOptional(t[|pre|..], c)
  {
    var n := |pre|;
    if n < |t| && LowerChar(t[n]) == c {
      h := t[..n + 1];
      assert h == t[..n] + [t[n]];
      ToLowerConcat(t[..n], [t[n]]);
      assert ToLower([t[n]]) == [c];
      assert t[n..][1..] == t[n + 1..];
      assert t == h + t[n + 1..];
    } else {
      h := t[..n];
      assert t == h + t[n..];
    }
  }

  /** What `\s*` consumed from `u`: a run of whitespace in front of `TrimStart(u)`. */
  lemma LeadingSplit(u: string) returns (w: string)
    ensures AllWhitespace(w) && u == w + TrimStart(u)
  {
    w := u[..LeadingWs(u)];
    assert u == w + u[LeadingWs(u)..];
  }

  /** What a literal consumed from `b`: a word lower-casing to it. */
  lemma LiteralSplit(b: string, lit: string) returns (h: string)
    requires StartsWithCI(b, lit)
    ensures ToLower(h) == lit && b == h + b[|lit|..]
  {
    h := b[..|lit|];
    assert b == h + b[|lit|..];
  }

  /** Only `&` lower-cases to `&`. */
  lemma AmpersandOnly(h: string)
    requires ToLower(h) == "&"
    ensures h == "&"
  {
    assert LowerChar(h[0]) == '&';
  }

  /** The second word of a head: the optional letter's word, then `:**`. */
  lemma WordThenColons(hd: string, tl: string, pre: string, c: char)
    requires ToLower(hd) == pre + [c] || ToLower(hd) == pre
    requires ToLower(tl) == ":**"
    ensures ToLower(hd + tl) == pre + [c] + ":**" || ToLower(hd + tl) == pre + ":**"
  {
    ToLowerConcat(hd, tl);
  }

  lemma TechnologiesHeadSplit(t: string) returns (h2: string)
    requires TechnologiesHead(t).Some?
    ensures IsTechnologiesWord(h2) && t == h2 + TechnologiesHead(t).value
  {
    var hd := OptionalWordSplit(t, "technologie", 's');
    var c := SkipOptional(t[11..], 's');
    var tl := LiteralSplit(c, ":**");
    WordThenColons(hd, tl, "technologie", 's');
    TechnologiesSpelled();
    h2 := hd + tl;
    assert t == h2 + c[3..];
  }

  /** A recognised `Technologies?:**` is one of its two spellings, in some letter case. */
  lemma TechnologiesHeadSound(t: string)
    requires TechnologiesHead(t).Some?
    ensures exists h2 :: IsTechnologiesWord(h2) && t == h2 + TechnologiesHead(t).value
  {
    var h2 := TechnologiesHeadSplit(t);
  }

  lemma DescriptionHeadSplit(t: string) returns (h1: string, w0: string, h2: string)
    requires DescriptionHead(t).Some?
    ensures IsProjectWord(h1) && AllWhitespace(w0) && IsDescriptionWord(h2)
    ensures t == h1 + w0 + h2 + DescriptionHead(t).value
  {
    h1 := OptionalWordSplit(t, "**projec", 't');
    ProjectSpelled();
    var u := SkipOptional(t[8..], 't');
    w0 := LeadingSplit(u);
    var a := TrimStart(u);
    var hd := OptionalWordSplit(a, "descriptio", 'n');
    var b := SkipOptional(a[10..], 'n');
    var tl := LiteralSplit(b, ":**");
    WordThenColons(hd, tl, "descriptio", 'n');
    DescriptionSpelled();
    h2 := hd + tl;
    HeadJoin(t, h1, u, w0, a, hd, b, tl, b[3..]);
  }

  lemma HeadJoin(t: string, h1: string, u: string, w0: string, a: string, hd: string, b: string, tl: string, rest: string)
    requires t == h1 + u && u == w0 + a && a == hd + b && b == tl + rest
    ensures t == h1 + w0 + (hd + tl) + rest
  {
  }

  /** A recognised description head is `**Project?`, whitespace and `Description?:**`,
      in some letter case: the matcher accepts nothing more. */
  lemma DescriptionHeadSound(t: string)
    requires DescriptionHead(t).Some?
    ensures exists h1, w0, h2 ::
              IsProjectWord(h1) && AllWhitespace(w0) && IsDescriptionWord(h2) && t == h1 + w0 + h2 + DescriptionHead(t).value
  {
    var h1, w0, h2 := DescriptionHeadSplit(t);
  }

  lemma TagsHeadSplit(t: string) returns (h1: string, w0: string, w1: string, h2: string)
    requires TagsHead(t).Some?
    ensures IsLanguagesWord(h1) && AllWhitespace(w0) && AllWhitespace(w1) && IsTechnologiesWord(h2)
    ensures t == h1 + w0 + "&" + w1 + h2 + TagsHead(t).value
  {
    h1 := OptionalWordSplit(t, "**language", 's');
    LanguagesSpelled();
    var u := SkipOptional(t[10..], 's');
    w0 := LeadingSplit(u);
    var a := TrimStart(u);
    var amp := LiteralSplit(a, "&");
    AmpersandOnly(amp);
    w1 := LeadingSplit(a[1..]);
    var b := TrimStart(a[1..]);
    assert TagsHead(t) == TechnologiesHead(b);
    h2 := TechnologiesHeadSplit(b);
    TagsJoin(t, h1, u, w0, a, a[1..], w1, b, h2, TagsHead(t).value);
  }

  lemma TagsJoin(t: string, h1: string, u: string, w0: string, a: string, v: string, w1: string, b: string, h2: string, rest: string)
    requires t == h1 + u && u == w0 + a && a == "&" + v && v == w1 + b && b == h2 + rest
    ensures t == h1 + w0 + "&" + w1 + h2 + rest
  {
  }

  /** A recognised tags head is `**Languages?`, whitespace, `&`, whitespace and
      `Technologies?:**`, in some letter case: the matcher accepts nothing more. */
  lemma TagsHeadSound(t: string)
    requires TagsHead(t).Some?
    ensures exists h1, w0, w1, h2 ::
              IsLanguagesWord(h1) && AllWhitespace(w0) && AllWhitespace(w1) && IsTechnologiesWord(h2)
              && t == h1 + w0 + "&" + w1 + h2 + TagsHead(t).value
  {
    var h1, w0, w1, h2 := TagsHeadSplit(t);
  }

  /** The description line of the convention, after any text without `*`, yields
      exactly the text after the head and its whitespace, untrimmed. */
  lemma {:induction false} DescriptionLineYields(x: string, h1: string, w0: string, h2: string, w1: string, c: string)
    requires '*' !in x
    requires IsProjectWord(h1) && AllWhitespace(w0) && IsDescriptionWord(h2)
    requires AllWhitespace(w1) && c != [] && !IsWhitespace(c[0])
    requires forall i :: 0 <= i < |c| ==> !IsLineTerminator(c[i])
    ensures Search(DescriptionLine, x + h1 + w0 + h2 + w1 + c) == Some(c)
  {
    var t := h1 + w0 + h2 + (w1 + c);
    assert x + h1 + w0 + h2 + w1 + c == x + t;
    SearchSkipsPrefix(DescriptionLine, x, t);
    DescriptionHeadOf(h1, w0, h2, w1 + c);
    CaptureOf(w1, c);
    SearchAtHead(DescriptionLine, t, w1 + c, c);
  }

  /** The tags line of the convention, after any text without `*`, yields the group
      that follows the head and its whitespace. */
  lemma {:induction false} TagsLineYields(x: string, h1: string, w0: string, w1: string, h2: string, w2: string, c: string)
    requires '*' !in x
    requires IsLanguagesWord(h1) && AllWhitespace(w0) && AllWhitespace(w1)
    requires IsTechnologiesWord(h2) && AllWhitespace(w2)
    requires c != [] && !IsWhitespace(c[0])
    requires forall i :: 0 <= i < |c| ==> !IsLineTerminator(c[i])
    ensures Search(TagsLine, x + h1 + w0 + "&" + w1 + h2 + w2 + c) == Some(c)
  {
    var t := h1 + w0 + "&" + w1 + h2 + (w2 + c);
    TagsLineRegroup(x, h1, w0, "&", w1, h2, w2, c);
    SearchSkipsPrefix(TagsLine, x, t);
    TagsLineAt(h1, w0, w1, h2, w2, c);
  }

  lemma TagsLineRegroup(x: string, h1: string, w0: string, a: string, w1: string, h2: string, w2: string, c: string)
    ensures x + h1 + w0 + a + w1 + h2 + w2 + c == x + (h1 + w0 + a + w1 + h2 + (w2 + c))
  {
  }

  lemma TagsLineAt(h1: string, w0: string, w1: string, h2: string, w2: string, c: string)
    requires IsLanguagesWord(h1) && AllWhitespace(w0) && AllWhitespace(w1)
    requires IsTechnologiesWord(h2) && AllWhitespace(w2)
    requires c != [] && !IsWhitespace(c[0])
    requires forall i :: 0 <= i < |c| ==> !IsLineTerminator(c[i])
    ensures Search(TagsLine, h1 + w0 + "&" + w1 + h2 + (w2 + c)) == Some(c)
  {
    TagsHeadOf(h1, w0, w1, h2, w2 + c);
    CaptureOf(w2, c);
    SearchAtHead(TagsLine, h1 + w0 + "&" + w1 + h2 + (w2 + c), w2 + c, c);
  }

  /** A head at the very start of the text whose rest is captured: the search stops there. */
  lemma SearchAtHead(p: Pattern, t: string, rest: string, c: string)
    requires HeadRest(p, t) == Some(rest) && Capture(rest) == Some(c)
    ensures Search(p, t) == Some(c)
  {
  }

  // ---------------------------------------------------------------------------
  // Tags.
  // ---------------------------------------------------------------------------

  /** Every piece prefixed with one space. */
  function PrefixSpace(bs: seq<string>): (r: seq<string>)
    ensures |r| == |bs| && forall i :: 0 <= i < |bs| ==> r[i] == " " + bs[i]
  {
    if bs == [] then [] else [" " + bs[0]] + PrefixSpace(bs[1..])
  }

  lemma {:induction false} JoinCommaSpace(a: string, bs: seq<string>)
    ensures Join([a] + bs, ", ") == Join([a] + PrefixSpace(bs), ",")
    decreases |bs|
  {
    if bs != [] {
      assert ([a] + bs)[1..] == bs;
      assert ([a] + PrefixSpace(bs))[1..] == PrefixSpace(bs);
      JoinCommaSpace(bs[0], bs[1..]);
      assert [bs[0]] + bs[1..] == bs;
      if |bs| == 1 {
        assert PrefixSpace(bs) == [" " + bs[0]];
      } else {
        assert PrefixSpace(bs) == [" " + bs[0]] + PrefixSpace(bs[1..]);
        assert PrefixSpace(bs)[1..] == PrefixSpace(bs[1..]);
        assert Join([bs[0]] + PrefixSpace(bs[1..]), ",") == bs[0] + "," + Join(PrefixSpace(bs[1..]), ",");
        assert Join(PrefixSpace(bs), ",") == " " + bs[0] + "," + Join(PrefixSpace(bs[1..]), ",");
      }
    }
  }

  lemma {:induction false} DropEmptyKeepsNonEmpty(xs: seq<string>)
    requires forall i :: 0 <= i < |xs| ==> xs[i] != ""
    ensures DropEmpty(xs) == xs
  {
    if xs != [] {
      DropEmptyKeepsNonEmpty(xs[1..]);
    }
  }

  /** The pieces `Split(Join(ts, ", "), ',')` consists of: the first tag, then each
      further tag after one space. */
  function CommaPieces(ts: seq<string>): seq<string>
    requires ts != []
  {
    [ts[0]] + PrefixSpace(ts[1..])
  }

  predicate IsPlainTag(t: string)
  {
    t != "" && IsTrimmed(t) && ',' !in t
  }

  lemma CommaPiecesJoin(ts: seq<string>)
    requires ts != []
    ensures Join(ts, ", ") == Join(CommaPieces(ts), ",")
  {
    assert ts == [ts[0]] + ts[1..];
    JoinCommaSpace(ts[0], ts[1..]);
  }

  lemma CommaPiecesNoComma(ts: seq<string>)
    requires ts != [] && forall i :: 0 <= i < |ts| ==> IsPlainTag(ts[i])
    ensures forall i :: 0 <= i < |CommaPieces(ts)| ==> ',' !in CommaPieces(ts)[i]
  {
    var pieces := CommaPieces(ts);
    forall i | 0 <= i < |pieces| ensures ',' !in pieces[i] {
      if i > 0 {
        assert pieces[i] == " " + ts[i];
      }
    }
  }

  lemma CommaPiecesTrim(ts: seq<string>)
    requires ts != [] && forall i :: 0 <= i < |ts| ==> IsPlainTag(ts[i])
    ensures TrimAll(CommaPieces(ts)) == ts
  {
    var pieces := CommaPieces(ts);
    forall i | 0 <= i < |pieces| ensures Trim(pieces[i]) == ts[i] {
      if i == 0 {
        TrimOfTrimmed(ts[0]);
      } else {
        assert pieces[i] == " " + ts[i] + [];
        TrimPadded(" ", ts[i], []);
      }
    }
  }

  /** A tag list written as the convention writes it, `tag1, tag2, ...`, reads back as
      itself: same tags, same order, duplicates kept. */
  lemma TagsRoundTrip(ts: seq<string>)
    requires forall i :: 0 <= i < |ts| ==> IsPlainTag(ts[i])
    ensures SplitTags(Join(ts, ", ")) == ts
  {
    if ts == [] {
      assert Split("", ',') == [""];
      assert TrimAll([""]) == [Trim("")];
    } else {
      CommaPiecesJoin(ts);
      CommaPiecesNoComma(ts);
      SplitJoin(CommaPieces(ts), ',');
      CommaPiecesTrim(ts);
      DropEmptyKeepsNonEmpty(ts);
    }
  }

  /** The tag list is empty exactly when every comma-separated piece is blank. */
  lemma {:induction false} DropEmptyTrimAllEmpty(parts: seq<string>)
    ensures DropEmpty(TrimAll(parts)) == [] <==> forall i :: 0 <= i < |parts| ==> AllWhitespace(parts[i])
  {
    if parts != [] {
      DropEmptyTrimAllEmpty(parts[1..]);
      assert TrimAll(parts) == [Trim(parts[0])] + TrimAll(parts[1..]);
      assert TrimAll(parts)[1..] == TrimAll(parts[1..]);
      assert forall i :: 1 <= i < |parts| ==> parts[1..][i - 1] == parts[i];
    }
  }

  // ---------------------------------------------------------------------------
  // Fixed line positions.
  // ---------------------------------------------------------------------------

  /** A text made of lines: splitting it on "\n" gives the lines back. */
  predicate IsLineList(ls: seq<string>)
  {
    |ls| >= 1 && forall i :: 0 <= i < |ls| ==> '\n' !in ls[i]
  }

  /** The description depends on line index 2 only; fewer than three lines give "". */
  lemma DescriptionReadsLineTwo(ls: seq<string>)
    requires IsLineList(ls)
    ensures DescriptionFromText(Join(ls, "\n")) ==
      if |ls| >= 3 then Search(DescriptionLine, ls[2]).GetOr("") else ""
  {
    SplitJoin(ls, '\n');
  }

  /** The tags depend on line index 4 only; fewer than five lines give []. */
  lemma TagsReadLineFour(ls: seq<string>)
    requires IsLineList(ls)
    ensures TagsFromText(Join(ls, "\n")) ==
      if |ls| >= 5 && Search(TagsLine, ls[4]).Some? then SplitTags(Search(TagsLine, ls[4]).value) else []
  {
    SplitJoin(ls, '\n');
  }

  /** The description line and the tags line as the convention writes them. */
  function DescriptionLineOf(d: string): string
  {
    "**Project Description:** " + d
  }

  function TagsLineOf(ts: seq<string>): string
  {
    "**Languages & Technologies:** " + Join(ts, ", ")
  }

  /** A document in the shape of the convention: a title line, a line, the
      description line, a line, the tags line, then any further lines. */
  function ConventionLines(title: string, l1: string, d: string, l3: string, ts: seq<string>, rest: seq<string>): seq<string>
  {
    [title, l1, DescriptionLineOf(d), l3, TagsLineOf(ts)] + rest
  }

  predicate NoTerminator(s: string)
  {
    forall i :: 0 <= i < |s| ==> !IsLineTerminator(s[i])
  }

  /** A description the convention can carry: one line, not starting with whitespace. */
  predicate IsPlainDescription(d: string)
  {
    d != [] && !IsWhitespace(d[0]) && NoTerminator(d)
  }

  /** A tag list the convention can carry: at least one tag, each one line. */
  predicate IsPlainTagList(ts: seq<string>)
  {
    && ts != []
    && (forall i :: 0 <= i < |ts| ==> IsPlainTag(ts[i]))
    && (forall i :: 0 <= i < |ts| ==> NoTerminator(ts[i]))
  }

  lemma NoTerminatorNoNewline(s: string)
    requires NoTerminator(s)
    ensures '\n' !in s
  {
    assert forall i :: 0 <= i < |s| ==> s[i] != '\n';
  }

  lemma {:induction false} NoTerminatorConcat(a: string, b: string)
    requires NoTerminator(a) && NoTerminator(b)
    ensures NoTerminator(a + b)
  {
    forall i | 0 <= i < |a + b| ensures !IsLineTerminator((a + b)[i]) {
      if i >= |a| {
        assert (a + b)[i] == b[i - |a|];
      }
    }
  }

  lemma ConventionLinesAreLines(title: string, l1: string, d: string, l3: string, ts: seq<string>, rest: seq<string>)
    requires '\n' !in title && '\n' !in l1 && '\n' !in l3
    requires forall i :: 0 <= i < |rest| ==> '\n' !in rest[i]
    requires NoTerminator(d) && IsPlainTagList(ts)
    ensures IsLineList(ConventionLines(title, l1, d, l3, ts, rest))
  {
    var ls := ConventionLines(title, l1, d, l3, ts, rest);
    DescriptionLineOfOneLine(d);
    TagsLineOfOneLine(ts);
    forall i | 0 <= i < |ls| ensures '\n' !in ls[i] {
      if i >= 5 { assert ls[i] == rest[i - 5]; }
    }
  }

  lemma DescriptionLineOfOneLine(d: string)
    requires NoTerminator(d)
    ensures '\n' !in DescriptionLineOf(d)
  {
    assert NoTerminator("**Project Description:** ");
    NoTerminatorConcat("**Project Description:** ", d);
    NoTerminatorNoNewline(DescriptionLineOf(d));
  }

  lemma TagsLineOfOneLine(ts: seq<string>)
    requires IsPlainTagList(ts)
    ensures '\n' !in TagsLineOf(ts)
  {
    JoinNoTerminator(ts);
    assert NoTerminator("**Languages & Technologies:** ");
    NoTerminatorConcat("**Languages & Technologies:** ", Join(ts, ", "));
    NoTerminatorNoNewline(TagsLineOf(ts));
  }

  // The heads as the convention spells them, lower-cased a few letters at a time.

  lemma ProjectPieces()
    ensures "**Project" == "**Pro" + "ject" && "**project" == "**pro" + "ject"
  {
  }

  lemma ProjectFront()
    ensures ToLower("**Pro") == "**pro"
  {
  }

  lemma ProjectBack()
    ensures ToLower("ject") == "ject"
  {
    LowerUnchanged("ject");
  }

  lemma LowerProjectHead()
    ensures ToLower("**Project") == "**project"
  {
    ProjectPieces();
    ProjectFront();
    ProjectBack();
    ToLowerConcat("**Pro", "ject");
  }

  lemma DescriptionPieces()
    ensures "Description:**" == "Descr" + "iption:**" && "description:**" == "descr" + "iption:**"
  {
  }

  lemma DescriptionFront()
    ensures ToLower("Descr") == "descr"
  {
  }

  lemma DescriptionBack()
    ensures ToLower("iption:**") == "iption:**"
  {
    LowerUnchanged("iption:**");
  }

  lemma LowerDescriptionHead()
    ensures ToLower("Description:**") == "description:**"
  {
    DescriptionPieces();
    DescriptionFront();
    DescriptionBack();
    ToLowerConcat("Descr", "iption:**");
  }

  lemma LanguagesPieces()
    ensures "**Languages" == "**Lan" + "guages" && "**languages" == "**lan" + "guages"
  {
  }

  lemma LanguagesFront()
    ensures ToLower("**Lan") == "**lan"
  {
  }

  lemma LanguagesBack()
    ensures ToLower("guages") == "guages"
  {
    LowerUnchanged("guages");
  }

  lemma LowerLanguagesHead()
    ensures ToLower("**Languages") == "**languages"
  {
    LanguagesPieces();
    LanguagesFront();
    LanguagesBack();
    ToLowerConcat("**Lan", "guages");
  }

  lemma TechnologiesPieces()
    ensures "Technologies:**" == "Techn" + "ologies:**" && "technologies:**" == "techn" + "ologies:**"
  {
  }

  lemma TechnologiesFront()
    ensures ToLower("Techn") == "techn"
  {
  }

  lemma TechnologiesBack()
    ensures ToLower("ologies:**") == "ologies:**"
  {
    LowerUnchanged("ologies:**");
  }

  lemma LowerTechnologiesHead()
    ensures ToLower("Technologies:**") == "technologies:**"
  {
    TechnologiesPieces();
    TechnologiesFront();
    TechnologiesBack();
    ToLowerConcat("Techn", "ologies:**");
  }

  lemma SpaceIsWhitespace()
    ensures AllWhitespace(" ")
  {
    assert IsWhitespace(' ');
  }

  lemma DescriptionLineSpelled(d: string)
    ensures DescriptionLineOf(d) == "" + "**Project" + " " + "Description:**" + " " + d
  {
  }

  lemma TagsLineSpelled(g: string)
    ensures "**Languages & Technologies:** " + g == "" + "**Languages" + " " + "&" + " " + "Technologies:**" + " " + g
  {
  }

  /** The description line of the convention yields its description. */
  lemma DescriptionLineOfYields(d: string)
    requires IsPlainDescription(d)
    ensures Search(DescriptionLine, DescriptionLineOf(d)) == Some(d)
  {
    DescriptionLineSpelled(d);
    LowerProjectHead();
    LowerDescriptionHead();
    SpaceIsWhitespace();
    DescriptionLineYields("", "**Project", " ", "Description:**", " ", d);
  }

  /** The tags line of the convention yields its tags. */
  lemma TagsLineOfYields(ts: seq<string>)
    requires IsPlainTagList(ts)
    ensures Search(TagsLine, TagsLineOf(ts)).Some?
    ensures SplitTags(Search(TagsLine, TagsLineOf(ts)).value) == ts
  {
    var g := Join(ts, ", ");
    JoinNoTerminator(ts);
    JoinStartsWithFirst(ts);
    TagsLineSpelled(g);
    LowerLanguagesHead();
    LowerTechnologiesHead();
    SpaceIsWhitespace();
    TagsLineYields("", "**Languages", " ", " ", "Technologies:**", " ", g);
    TagsRoundTrip(ts);
  }

  /** A document in the shape of the convention yields its description and its tags,
      whatever its other lines hold. */
  lemma ConventionDocument(title: string, l1: string, d: string, l3: string, ts: seq<string>, rest: seq<string>)
    requires '\n' !in title && '\n' !in l1 && '\n' !in l3
    requires forall i :: 0 <= i < |rest| ==> '\n' !in rest[i]
    requires IsPlainDescription(d) && IsPlainTagList(ts)
    ensures DescriptionFromText(Join(ConventionLines(title, l1, d, l3, ts, rest), "\n")) == d
    ensures TagsFromText(Join(ConventionLines(title, l1, d, l3, ts, rest), "\n")) == ts
  {
    var ls := ConventionLines(title, l1, d, l3, ts, rest);
    ConventionLinesAreLines(title, l1, d, l3, ts, rest);
    DescriptionReadsLineTwo(ls);
    TagsReadLineFour(ls);
    assert ls[2] == DescriptionLineOf(d) && ls[4] == TagsLineOf(ts);
    DescriptionLineOfYields(d);
    TagsLineOfYields(ts);
  }

  lemma {:induction false} JoinNoTerminator(ts: seq<string>)
    requires forall i :: 0 <= i < |ts| ==> NoTerminator(ts[i])
    ensures NoTerminator(Join(ts, ", "))
  {
    if |ts| > 1 {
      JoinNoTerminator(ts[1..]);
      assert NoTerminator(", ");
      NoTerminatorConcat(ts[0], ", ");
      NoTerminatorConcat(ts[0] + ", ", Join(ts[1..], ", "));
    }
  }

  lemma JoinStartsWithFirst(ts: seq<string>)
    requires ts != [] && ts[0] != ""
    ensures Join(ts, ", ") != [] && Join(ts, ", ")[0] == ts[0][0]
  {
  }

  // ---------------------------------------------------------------------------
  // Choosing the file.
  // ---------------------------------------------------------------------------

  /** The text both extractors read: that of the file `find` chooses, or "" when
      there is none or its download fails. */
  function MarkdownText(files: seq<ProjectFile>, download: string -> Option<string>): string
  {
    match FindMarkdownFile(files)
    case None => ""
    case Some(file) => download(file.downloadUrl.value).GetOr("")
  }

  /** Description and tags come from one and the same file, since both extractors
      use the same `find` predicate; the empty text gives "" and []. */
  lemma MetadataFromOneFile(files: seq<ProjectFile>, download: string -> Option<string>)
    ensures ExtractDescription(files, download) == DescriptionFromText(MarkdownText(files, download))
    ensures ExtractTags(files, download) == TagsFromText(MarkdownText(files, download))
  {
    assert Lines("") == [""];
  }
}
