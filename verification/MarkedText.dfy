/** A section of a text between two marker lines: replacing it and reading it back. */
module MarkedText {
  import opened Text

  /** A marker opens with an angle bracket that occurs nowhere else in it, and fits on one line. */
  ghost predicate IsMarker(p: string) {
    |p| > 0 && p[0] == '<' && !IsSpace(p[|p| - 1]) && forall k | 0 < k < |p| :: p[k] != '<' && p[k] != '\n'
  }

  /** The start marker and the end marker, which differ at some position. */
  datatype Markers = Markers(open: string, close: string) {
    ghost predicate Valid() {
      IsMarker(open) && IsMarker(close) && exists k: nat :: DifferAt(k)
    }

    predicate DifferAt(k: nat) {
      k < |open| && k < |close| && open[k] != close[k]
    }

    function Section(body: string): string {
      open + body + close + "\n"
    }

    /** A text that holds neither marker. */
    predicate Plain(text: string) {
      !Contains(text, open) && !Contains(text, close)
    }

    /** Neither marker, or the first start marker before the first end marker. */
    predicate Mergeable(text: string) {
      var start := Find(text, open);
      var end := Find(text, close);
      (start.None? && end.None?) || (start.Some? && end.Some? && start.value < end.value)
    }

    /** The first position after the end marker and the line break that may follow it. */
    function EndPos(text: string, end: nat): (r: nat)
      requires end + |close| <= |text|
      ensures r <= |text|
    {
      var endPos := end + |close|;
      if endPos < |text| && text[endPos] == '\n' then endPos + 1 else endPos
    }

    function Merge(existing: string, generated: string): string {
      var start := Find(existing, open);
      var end := Find(existing, close);
      if start.Some? && end.Some? then
        existing[..start.value] + generated + existing[EndPos(existing, end.value)..]
      else
        TrimEnd(existing) + "\n" + generated
    }

    /** The trimmed text between the markers. The slice bounds are in order because markers cannot overlap. */
    function Extract(content: string): Option<string>
      requires Valid()
    {
      var start := Find(content, open);
      var end := Find(content, close);
      if start.None? || end.None? || end.value <= start.value then None
      else
        MarkersApart(content, start.value, open, end.value, close);
        Some(Trim(content[start.value + |open|..end.value]))
    }
  }

  // ---------------------------------------------------------------- occurrences of markers

  /** Two marker occurrences do not overlap. */
  lemma MarkersApart(s: string, i: int, p: string, j: int, q: string)
    requires IsMarker(p) && IsMarker(q) && At(s, i, p) && At(s, j, q) && i < j
    ensures i + |p| <= j
  {
    AtChar(s, j, q, 0);
    AtChar(s, i, p, j - i);
  }

  /** Two different markers do not occur at the same place. */
  lemma MarkersDiffer(m: Markers, s: string, i: int)
    requires m.Valid()
    ensures !(At(s, i, m.open) && At(s, i, m.close))
  {
    var k: nat :| m.DifferAt(k);
    AtChar(s, i, m.open, k);
    AtChar(s, i, m.close, k);
  }

  /** A marker cannot straddle a place where the next character is one that it lacks inside. */
  lemma NoStraddle(a: string, b: string, i: nat, p: string)
    requires IsMarker(p) && i < |a| < i + |p| && (b == "" || b[0] == '<' || b[0] == '\n')
    ensures !At(a + b, i, p)
  {
    AtChar(a + b, i, p, |a| - i);
  }

  /** Finding a marker in `a + b` when `a` has none. */
  lemma FindAppended(a: string, b: string, p: string)
    requires IsMarker(p) && !Contains(a, p) && (b == "" || b[0] == '<' || b[0] == '\n')
    ensures Find(b, p).None? ==> Find(a + b, p).None?
    ensures Find(b, p).Some? ==> Find(a + b, p) == Some(|a| + Find(b, p).value)
  {
    forall i | 0 <= i < |a|
      ensures !At(a + b, i, p)
    {
      if i + |p| <= |a| {
        AtPrefix(a, b, i, p);
      } else {
        NoStraddle(a, b, i, p);
      }
    }
    forall i | |a| <= i
      ensures At(a + b, i, p) <==> At(b, i - |a|, p)
    {
      AtSuffix(a, b, i - |a|, p);
    }
    FindIs(a + b, p, if Find(b, p).None? then None else Some(|a| + Find(b, p).value));
  }

  /** What determines the result of `Find`. */
  lemma FindIs(s: string, p: string, r: Option<nat>)
    requires r.Some? ==> At(s, r.value, p) && forall j | 0 <= j < r.value :: !At(s, j, p)
    requires r.None? ==> forall j | 0 <= j <= |s| :: !At(s, j, p)
    ensures Find(s, p) == r
  {
    if r.Some? {
      assert Contains(s, p);
    }
  }

  lemma PrefixLacks(s: string, n: nat, p: string)
    requires n <= |s| && forall j | 0 <= j < n :: !At(s, j, p)
    requires p != ""
    ensures !Contains(s[..n], p)
  {
    forall i | 0 <= i <= n
      ensures !At(s[..n], i, p)
    {
      if i + |p| <= n {
        AtPrefix(s[..n], s[n..], i, p);
        assert s[..n] + s[n..] == s;
      }
    }
  }

  lemma NewlineLacks(p: string)
    requires IsMarker(p)
    ensures !Contains("\n", p)
  {
    forall i | 0 <= i <= 1
      ensures !At("\n", i, p)
    {
      AtChar("\n", i, p, 0);
    }
  }

  /** Trimming at the end and appending a line break brings no marker in. */
  lemma TrimmedLacks(s: string, p: string)
    requires IsMarker(p) && !Contains(s, p)
    ensures !Contains(TrimEnd(s) + "\n", p)
  {
    var t := TrimEnd(s);
    TrimEndShape(s);
    assert t == s[..|t|];
    PrefixLacks(s, |t|, p);
    NewlineLacks(p);
    FindAppended(t, "\n", p);
  }

  /** Trimming at the end keeps every marker. */
  lemma TrimEndKeeps(s: string, i: nat, p: string)
    requires IsMarker(p) && At(s, i, p)
    ensures i + |p| <= |TrimEnd(s)|
  {
    var t := TrimEnd(s);
    TrimEndShape(s);
    AtChar(s, i, p, |p| - 1);
    forall x | |t| <= x < |s|
      ensures IsSpace(s[x])
    {
      assert s[|t|..][x - |t|] == s[x];
    }
  }

  // ---------------------------------------------------------------- a section in a text

  lemma OpenLacksClose(m: Markers, body: string)
    requires m.Valid() && !Contains(body, m.close)
    ensures !Contains(m.open + body, m.close)
  {
    var s := m.open + body;
    assert At(s, 0, m.open);
    MarkersDiffer(m, s, 0);
    forall i | 0 <= i <= |s|
      ensures !At(s, i, m.close)
    {
      AtChar(s, i, m.close, 0);
      AtChar(s, 0, m.open, i);
      if i >= |m.open| {
        AtSuffix(m.open, body, i - |m.open|, m.close);
      }
    }
  }

  lemma Prefixed(p: string, rest: string)
    requires IsMarker(p)
    ensures Find(p + rest, p) == Some(0) && (p + rest)[0] == '<'
  {
    forall k | 0 <= k < |p|
      ensures SameChar(p + rest, 0, p, k)
    {
    }
    assert At(p + rest, 0, p);
    assert Contains(p + rest, p);
  }

  lemma SectionShape(m: Markers, pre: string, body: string, post: string)
    ensures pre + m.Section(body) + post == pre + (m.open + (body + m.close + "\n" + post))
    ensures pre + m.Section(body) + post == pre + ((m.open + body) + (m.close + ("\n" + post)))
  {}

  /** The start marker of a section after a text without one. */
  lemma FindOpen(m: Markers, pre: string, body: string, post: string)
    requires m.Valid() && !Contains(pre, m.open)
    ensures Find(pre + m.Section(body) + post, m.open) == Some(|pre|)
  {
    var rest := body + m.close + "\n" + post;
    SectionShape(m, pre, body, post);
    Prefixed(m.open, rest);
    FindAppended(pre, m.open + rest, m.open);
  }

  /** The end marker of a section after a text without one. */
  lemma FindClose(m: Markers, pre: string, body: string, post: string)
    requires m.Valid() && !Contains(body, m.close) && !Contains(pre, m.close)
    ensures Find(pre + m.Section(body) + post, m.close) == Some(|pre| + |m.open| + |body|)
  {
    var rest := m.close + ("\n" + post);
    SectionShape(m, pre, body, post);
    FindCloseAfter(m, body, "\n" + post);
    FindAppended(pre, (m.open + body) + rest, m.close);
  }

  lemma FindCloseAfter(m: Markers, body: string, rest: string)
    requires m.Valid() && !Contains(body, m.close)
    ensures var s := (m.open + body) + (m.close + rest);
      Find(s, m.close) == Some(|m.open| + |body|) && s[0] == '<'
  {
    Prefixed(m.close, rest);
    OpenLacksClose(m, body);
    FindAppended(m.open + body, m.close + rest, m.close);
  }

  lemma Layout(pre: string, a: string, b: string, c: string, post: string)
    ensures var s := pre + (a + b + c + "\n") + post; var end := |pre| + |a| + |b|;
      && |s| == end + |c| + 1 + |post|
      && s[..|pre|] == pre && s[|pre| + |a|..end] == b
      && s[end + |c|] == '\n' && s[end + |c| + 1..] == post
  {}

  lemma MergeAt(m: Markers, s: string, generated: string, start: nat, end: nat, pre: string, post: string)
    requires Find(s, m.open) == Some(start) && Find(s, m.close) == Some(end)
    requires end + |m.close| < |s| && s[end + |m.close|] == '\n'
    requires pre == s[..start] && post == s[end + |m.close| + 1..]
    ensures m.Merge(s, generated) == pre + generated + post
  {}

  lemma ExtractAt(m: Markers, s: string, start: nat, end: nat, inner: string)
    requires m.Valid() && Find(s, m.open) == Some(start) && Find(s, m.close) == Some(end) && start + |m.open| <= end
    requires inner == s[start + |m.open|..end]
    ensures m.Extract(s) == Some(Trim(inner))
  {}

  /** Merging again replaces exactly the earlier section, and reading back finds exactly that. */
  lemma MergeReplaces(m: Markers, s: string, pre: string, body: string, post: string, generated: string)
    requires m.Valid() && !Contains(body, m.close) && m.Plain(pre) && s == pre + m.Section(body) + post
    ensures m.Merge(s, generated) == pre + generated + post
    ensures m.Extract(s) == Some(Trim(body))
  {
    Layout(pre, m.open, body, m.close, post);
    Found(m, s, pre, body, post);
    MergeAt(m, s, generated, |pre|, |pre| + |m.open| + |body|, pre, post);
    ExtractAt(m, s, |pre|, |pre| + |m.open| + |body|, body);
  }

  lemma Found(m: Markers, s: string, pre: string, body: string, post: string)
    requires m.Valid() && !Contains(body, m.close) && m.Plain(pre) && s == pre + m.Section(body) + post
    ensures Find(s, m.open) == Some(|pre|) && Find(s, m.close) == Some(|pre| + |m.open| + |body|)
  {
    FindOpen(m, pre, body, post);
    FindClose(m, pre, body, post);
  }

  // ---------------------------------------------------------------- the frame of a merge

  /** The text before and after what a merge writes. */
  function Frame(m: Markers, existing: string): (string, string) {
    var start := Find(existing, m.open);
    var end := Find(existing, m.close);
    if start.Some? && end.Some? then (existing[..start.value], existing[m.EndPos(existing, end.value)..])
    else (TrimEnd(existing) + "\n", "")
  }

  lemma MergeIsFrame(m: Markers, existing: string, generated: string)
    ensures m.Merge(existing, generated) == Frame(m, existing).0 + generated + Frame(m, existing).1
  {}

  lemma FramePlain(m: Markers, existing: string)
    requires m.Valid() && m.Mergeable(existing)
    ensures m.Plain(Frame(m, existing).0)
  {
    var start := Find(existing, m.open);
    if start.Some? {
      PrefixLacks(existing, start.value, m.open);
      PrefixLacks(existing, start.value, m.close);
    } else {
      TrimmedLacks(existing, m.open);
      TrimmedLacks(existing, m.close);
    }
  }

  /** With both markers in order, everything outside the old block, which runs from the start marker to
      the end marker and the line break after it, is kept byte for byte. */
  lemma MergeKeepsTheRest(m: Markers, existing: string, generated: string)
    returns (before: string, inner: string, nl: string, after: string)
    requires m.Valid() && Find(existing, m.open).Some? && m.Mergeable(existing)
    ensures existing == before + (m.open + inner + m.close + nl) + after
    ensures m.Merge(existing, generated) == before + generated + after
    ensures |before| == Find(existing, m.open).value && |before| + |m.open| + |inner| == Find(existing, m.close).value
    ensures nl == "\n" || (nl == "" && (after == "" || after[0] != '\n'))
  {
    var start := Find(existing, m.open).value;
    var end := Find(existing, m.close).value;
    MarkersApart(existing, start, m.open, end, m.close);
    var endPos := m.EndPos(existing, end);
    before, inner, nl, after :=
      existing[..start], existing[start + |m.open|..end], existing[end + |m.close|..endPos], existing[endPos..];
    Pieces(existing, start, m.open, end, m.close, endPos);
    MergeIsFrame(m, existing, generated);
    LineBreakAfter(m, existing, end);
  }

  lemma LineBreakAfter(m: Markers, s: string, end: nat)
    requires end + |m.close| <= |s|
    ensures end + |m.close| <= m.EndPos(s, end) <= |s|
    ensures var e := m.EndPos(s, end); var nl := s[end + |m.close|..e];
      nl == "\n" || (nl == "" && (s[e..] == "" || s[e..][0] != '\n'))
  {}

  lemma Pieces(s: string, a: nat, p: string, c: nat, q: string, e: nat)
    requires a + |p| <= c && c + |q| <= e <= |s| && At(s, a, p) && At(s, c, q)
    ensures s == s[..a] + (p + s[a + |p|..c] + q + s[c + |q|..e]) + s[e..]
  {
    AtSlice(s, a, p);
    AtSlice(s, c, q);
    CutApart(s, a, a + |p|, c, c + |q|, e);
  }

  lemma CutApart(s: string, a: nat, b: nat, c: nat, d: nat, e: nat)
    requires a <= b <= c <= d <= e <= |s|
    ensures s == s[..a] + (s[a..b] + s[b..c] + s[c..d] + s[d..e]) + s[e..]
  {
    assert s[a..c] == s[a..b] + s[b..c];
    assert s[a..d] == s[a..c] + s[c..d];
    assert s[a..e] == s[a..d] + s[d..e];
    assert s == s[..a] + s[a..e] + s[e..];
  }

  // ---------------------------------------------------------------- merging twice

  lemma MergeTwiceMergeable(m: Markers, existing: string, body: string, generated: string)
    requires m.Valid() && m.Mergeable(existing) && !Contains(body, m.close)
    ensures m.Merge(m.Merge(existing, m.Section(body)), generated) == m.Merge(existing, generated)
    ensures m.Extract(m.Merge(existing, m.Section(body))) == Some(Trim(body))
  {
    FramePlain(m, existing);
    var (pre, post) := Frame(m, existing);
    MergeIsFrame(m, existing, m.Section(body));
    MergeIsFrame(m, existing, generated);
    MergeReplaces(m, pre + m.Section(body) + post, pre, body, post, generated);
  }

  /** Finding in a text that agrees with `s` up to the end of the first occurrence in `s`. */
  lemma FindAgrees(s: string, t: string, p: string, n: nat)
    requires Find(s, p).Some? && Find(s, p).value + |p| <= n <= |s| && n <= |t| && s[..n] == t[..n]
    ensures Find(t, p) == Find(s, p)
  {
    var i := Find(s, p).value;
    forall j | 0 <= j <= i
      ensures At(t, j, p) <==> At(s, j, p)
    {
      AtPrefix(s[..n], s[n..], j, p);
      AtPrefix(t[..n], t[n..], j, p);
      assert s == s[..n] + s[n..] && t == t[..n] + t[n..];
    }
    FindIs(t, p, Some(i));
  }

  /** With the markers in the wrong order the second merge duplicates text, and nothing is extracted. */
  lemma WrongOrderGrows(m: Markers, existing: string, body: string, generated: string)
    requires m.Valid() && Find(existing, m.open).Some? && Find(existing, m.close).Some?
    requires Find(existing, m.close).value < Find(existing, m.open).value
    ensures |m.Merge(m.Merge(existing, m.Section(body)), generated)| > |m.Merge(existing, generated)|
    ensures m.Extract(m.Merge(existing, m.Section(body))) == None
  {
    var start, end := Find(existing, m.open).value, Find(existing, m.close).value;
    var pre, post := Frame(m, existing).0, Frame(m, existing).1;
    var merged := pre + m.Section(body) + post;
    MarkersApart(existing, end, m.close, start, m.open);
    PrefixLacks(existing, start, m.open);
    FindOpen(m, pre, body, post);
    assert pre == existing[..start] == merged[..start];
    FindAgrees(existing, merged, m.close, start);
    AtChar(existing, start, m.open, 0);
    AtChar(merged, start, m.open, 0);
    SameEndPos(m, existing, merged, start, end);
    MergeIsFrame(m, merged, generated);
    MergeIsFrame(m, existing, generated);
    assert |m.Section(body)| > 0;
  }

  lemma SameEndPos(m: Markers, s: string, t: string, start: nat, end: nat)
    requires m.Valid() && end + |m.close| <= start < |s| && start < |t| && s[..start] == t[..start]
    requires s[start] == '<' && t[start] == '<'
    ensures m.EndPos(s, end) == m.EndPos(t, end)
  {
    var after := end + |m.close|;
    if after < start {
      assert s[after] == s[..start][after] == t[..start][after] == t[after];
    }
  }

  /** With only an end marker the second merge duplicates the first section. */
  lemma OnlyCloseDuplicates(m: Markers, existing: string, body: string, generated: string)
    requires m.Valid() && Find(existing, m.open).None? && Find(existing, m.close).Some?
    ensures |m.Merge(m.Merge(existing, m.Section(body)), generated)| > |m.Merge(existing, generated)|
    ensures m.Extract(m.Merge(existing, m.Section(body))) == None
  {
    var pre := TrimEnd(existing) + "\n";
    var merged := pre + m.Section(body) + "";
    assert m.Merge(existing, m.Section(body)) == merged;
    TrimmedLacks(existing, m.open);
    FindOpen(m, pre, body, "");
    KeptByTrim(m, existing, m.close, merged);
    MergeIsFrame(m, merged, generated);
  }

  /** The first occurrence of a marker stays where it is when something is appended to the trimmed text. */
  lemma KeptByTrim(m: Markers, s: string, p: string, t: string)
    requires IsMarker(p) && Find(s, p).Some? && TrimEnd(s) <= t
    ensures Find(t, p) == Find(s, p) && Find(s, p).value + |p| <= |TrimEnd(s)|
  {
    var u := TrimEnd(s);
    TrimEndShape(s);
    TrimEndKeeps(s, Find(s, p).value, p);
    FindAgrees(s, t, p, |u|);
  }

  /** With only a start marker the second merge swallows the text from that marker on, if nothing in the body
      ends the section earlier. */
  lemma OnlyOpenSwallows(m: Markers, existing: string, body: string, generated: string)
    requires m.Valid() && !Contains(body, m.close)
    requires Find(existing, m.open).Some? && Find(existing, m.close).None?
    ensures |m.Merge(m.Merge(existing, m.Section(body)), generated)| < |m.Merge(existing, generated)|
    ensures m.Extract(m.Merge(existing, m.Section(body))) != Some(Trim(body))
  {
    var pre := TrimEnd(existing) + "\n";
    var merged := pre + m.Section(body);
    assert merged == pre + m.Section(body) + "";
    var start := Find(existing, m.open).value;
    var end := |pre| + |m.open| + |body|;
    KeptByTrim(m, existing, m.open, merged);
    TrimmedLacks(existing, m.close);
    FindClose(m, pre, body, "");
    Layout(pre, m.open, body, m.close, "");
    MergeAt(m, merged, generated, start, end, merged[..start], "");
    ExtractAt(m, merged, start, end, merged[start + |m.open|..end]);
    InnerIsLonger(m, pre, body, merged, start);
  }

  /** The text read back then starts before the section's own start marker. */
  lemma InnerIsLonger(m: Markers, pre: string, body: string, merged: string, start: nat)
    requires m.Valid() && merged == pre + m.Section(body) && start + |m.open| <= |pre|
    ensures |Trim(merged[start + |m.open|..|pre| + |m.open| + |body|])| > |Trim(body)|
  {
    var inner := merged[start + |m.open|..|pre| + |m.open| + |body|];
    var z := pre[start + |m.open|..];
    assert merged == pre + m.open + body + (m.close + "\n");
    assert inner == z + m.open + body;
    var a, c := TrimSplit(body);
    var t := Trim(body);
    assert inner[|z|] == m.open[0] == '<';
    if t == "" {
      SpanKept(inner, |z|, |z|);
    } else {
      var last := |z| + |m.open| + |a| + |t| - 1;
      assert inner == z + m.open + (a + t + c) && inner[last] == t[|t| - 1];
      SpanKept(inner, |z|, last);
    }
  }

  /** Trimming keeps what lies between two characters that are no white space. */
  lemma SpanKept(s: string, i: nat, j: nat)
    requires i <= j < |s| && !IsSpace(s[i]) && !IsSpace(s[j])
    ensures |Trim(s)| >= j - i + 1
  {
    var a, b := TrimSplit(s);
    assert s == a + Trim(s) + b;
    forall x | 0 <= x < |a| ensures IsSpace(s[x]) { assert s[x] == a[x]; }
    forall x | |a| + |Trim(s)| <= x < |s| ensures IsSpace(s[x]) { assert s[x] == b[x - |a| - |Trim(s)|]; }
  }

  // ---------------------------------------------------------------- a body that ends its own section

  /** A section whose body holds an end marker ends there, after any text without one. */
  lemma FindEarlyClose(m: Markers, pre: string, body: string, post: string)
    requires m.Valid() && !Contains(pre, m.close) && Contains(body, m.close)
    ensures Find(pre + m.Section(body) + post, m.close) == Some(|pre| + |m.open| + Find(body, m.close).value)
    ensures Find(body, m.close).value + |m.close| <= |body|
  {
    var j := Find(body, m.close).value;
    var a, b := body[..j], body[j..] + (m.close + "\n" + post);
    PrefixLacks(body, j, m.close);
    OpenLacksClose(m, a);
    StartsAt(body, j, m.close, m.close + "\n" + post);
    FindAppended(m.open + a, b, m.close);
    assert (m.open + a + b)[0] == m.open[0] == '<';
    FindAppended(pre, m.open + a + b, m.close);
    BodySplit(m, pre, body, post, j);
  }

  /** From a marker's place on, a text starts with the marker. */
  lemma StartsAt(s: string, j: nat, p: string, rest: string)
    requires IsMarker(p) && At(s, j, p)
    ensures Find(s[j..] + rest, p) == Some(0) && (s[j..] + rest)[0] == '<'
  {
    assert s == s[..j] + s[j..];
    AtSuffix(s[..j], s[j..], 0, p);
    AtPrefix(s[j..], rest, 0, p);
    FindIs(s[j..] + rest, p, Some(0));
    AtChar(s[j..] + rest, 0, p, 0);
  }

  lemma BodySplit(m: Markers, pre: string, body: string, post: string, j: nat)
    requires j <= |body|
    ensures pre + m.Section(body) + post == pre + (m.open + body[..j] + (body[j..] + (m.close + "\n" + post)))
  {
    assert body == body[..j] + body[j..];
    SectionShape(m, pre, body, post);
  }

  /** Where the block that a merge replaces ends, when the body ends its own section. */
  lemma EarlyEnd(m: Markers, pre: string, body: string, post: string)
    requires m.Valid() && !Contains(pre, m.close) && Contains(body, m.close)
    ensures var s := pre + m.Section(body) + post; var j := Find(body, m.close).value;
      && Find(s, m.close) == Some(|pre| + |m.open| + j)
      && m.EndPos(s, |pre| + |m.open| + j) <= |pre| + |m.open| + |body|
      && |s| == |pre| + |m.Section(body)| + |post|
  {
    FindEarlyClose(m, pre, body, post);
    var s := pre + m.Section(body) + post;
    assert s[|pre| + |m.open| + |body|] == m.close[0] == '<';
  }

  /** The second merge then leaves the rest of the first body behind. */
  lemma EarlyCloseGrows(m: Markers, existing: string, body: string, generated: string)
    requires m.Valid() && m.Mergeable(existing) && Contains(body, m.close)
    ensures |m.Merge(m.Merge(existing, m.Section(body)), generated)| > |m.Merge(existing, generated)|
    ensures m.Extract(m.Merge(existing, m.Section(body))) != Some(Trim(body))
  {
    FramePlain(m, existing);
    var (pre, post) := Frame(m, existing);
    MergeIsFrame(m, existing, m.Section(body));
    MergeIsFrame(m, existing, generated);
    EarlyCloseSection(m, pre, body, post, generated, pre + m.Section(body) + post);
  }

  lemma EarlyCloseSection(m: Markers, pre: string, body: string, post: string, generated: string, s: string)
    requires m.Valid() && m.Plain(pre) && Contains(body, m.close) && s == pre + m.Section(body) + post
    ensures |m.Merge(s, generated)| > |pre + generated + post| && m.Extract(s) != Some(Trim(body))
  {
    var end := |pre| + |m.open| + Find(body, m.close).value;
    FindOpen(m, pre, body, post);
    EarlyEnd(m, pre, body, post);
    MergeLength(m, s, generated, |pre|, end);
    ReadsTooLittle(m, s, |pre|, end, body);
  }

  lemma MergeLength(m: Markers, s: string, generated: string, start: nat, end: nat)
    requires Find(s, m.open) == Some(start) && Find(s, m.close) == Some(end)
    ensures |m.Merge(s, generated)| == start + |generated| + |s| - m.EndPos(s, end)
  {}

  /** What is read back ends before the first end marker, which the trimmed body holds. */
  lemma InnerLacksClose(m: Markers, s: string, i: nat, end: nat, body: string)
    requires m.Valid() && i <= end && Find(s, m.close) == Some(end) && Contains(body, m.close)
    ensures Trim(s[i..end]) != Trim(body)
  {
    var inner := s[i..end];
    PrefixLacks(s, end, m.close);
    assert s[..end] == s[..i] + inner;
    forall k | 0 <= k <= |inner| ensures !At(inner, k, m.close) {
      AtSuffix(s[..i], inner, k, m.close);
    }
    TrimLacks(inner, m.close);
    TrimKeeps(body, Find(body, m.close).value, m.close);
  }

  /** A text does not come out of itself shifted past another one that has no marker. */
  lemma {:induction false} NoShift(x: string, g: string, y: string, p: string, i: nat)
    requires IsMarker(p) && x != "" && x[|x| - 1] == '\n' && !Contains(x, p) && x + g == g + y
    ensures !At(x + g, i, p)
    decreases i
  {
    if i < |x| {
      if i + |p| <= |x| {
        AtPrefix(x, g, i, p);
      } else {
        AtChar(x + g, i, p, |x| - 1 - i);
      }
    } else {
      var k := i - |x|;
      AtSuffix(x, g, k, p);
      if At(g, k, p) {
        AtPrefix(g, y, k, p);
        NoShift(x, g, y, p, k);
      }
    }
  }

  /** With only a start marker in the text and an end marker in the body, the lengths may agree, but the second
      merge still leaves an end marker behind. */
  lemma OnlyOpenEarlyClose(m: Markers, existing: string, body: string, generated: string)
    requires m.Valid() && Contains(body, m.close) && Find(existing, m.open).Some? && Find(existing, m.close).None?
    ensures m.Merge(m.Merge(existing, m.Section(body)), generated) != m.Merge(existing, generated)
    ensures m.Extract(m.Merge(existing, m.Section(body))) != Some(Trim(body))
  {
    var pre := TrimEnd(existing) + "\n";
    var merged := pre + m.Section(body) + "";
    var start := Find(existing, m.open).value;
    var end := |pre| + |m.open| + Find(body, m.close).value;
    KeptByTrim(m, existing, m.open, merged);
    TrimmedLacks(existing, m.close);
    EarlyEnd(m, pre, body, "");
    AppendedThenMerged(m, existing, body, generated, start, end);
    LeftBehind(m, pre, body, merged, generated, start, m.EndPos(merged, end));
    ReadsTooLittle(m, merged, start, end, body);
  }

  lemma ReadsTooLittle(m: Markers, s: string, start: nat, end: nat, body: string)
    requires m.Valid() && Find(s, m.open) == Some(start) && Find(s, m.close) == Some(end) && start + |m.open| <= end
    requires Contains(body, m.close)
    ensures m.Extract(s) != Some(Trim(body))
  {
    ExtractAt(m, s, start, end, s[start + |m.open|..end]);
    InnerLacksClose(m, s, start + |m.open|, end, body);
  }

  lemma AppendedThenMerged(m: Markers, existing: string, body: string, generated: string, start: nat, end: nat)
    requires Find(existing, m.open).None? || Find(existing, m.close).None?
    requires var s := TrimEnd(existing) + "\n" + m.Section(body) + "";
      Find(s, m.open) == Some(start) && Find(s, m.close) == Some(end)
    ensures var s := TrimEnd(existing) + "\n" + m.Section(body) + "";
      && m.Merge(existing, m.Section(body)) == s
      && m.Merge(s, generated) == s[..start] + generated + s[m.EndPos(s, end)..]
      && m.Merge(existing, generated) == TrimEnd(existing) + "\n" + generated
  {}

  /** The text from the start marker on, against the text that the second merge leaves behind. */
  lemma LeftBehind(m: Markers, pre: string, body: string, merged: string, generated: string, start: nat, e: nat)
    requires m.Valid() && merged == pre + m.Section(body) + "" && start < |pre| && !Contains(pre, m.close)
    requires pre[|pre| - 1] == '\n' && e <= |pre| + |m.open| + |body|
    ensures merged[..start] + generated + merged[e..] != pre + generated
  {
    var x, y := pre[start..], merged[e..];
    assert pre == pre[..start] + x && merged[..start] == pre[..start];
    if merged[..start] + generated + y == pre + generated {
      Associative(pre[..start], generated, y);
      Associative(pre[..start], x, generated);
      SamePrefix(pre[..start], generated + y, x + generated);
      SuffixLacks(pre[..start], x, m.close);
      EndsWithClose(m, pre, body, merged, generated, e);
      NoShift(x, generated, y, m.close, |generated + y| - |m.close| - 1);
    }
  }

  lemma SamePrefix(a: string, b: string, c: string)
    requires a + b == a + c
    ensures b == c
  {
    assert (a + b)[|a|..] == b && (a + c)[|a|..] == c;
  }

  lemma SuffixLacks(a: string, b: string, p: string)
    requires !Contains(a + b, p)
    ensures !Contains(b, p)
  {
    forall i | 0 <= i <= |b| ensures !At(b, i, p) {
      AtSuffix(a, b, i, p);
    }
  }

  lemma EndsWithClose(m: Markers, pre: string, body: string, merged: string, generated: string, e: nat)
    requires merged == pre + m.Section(body) + "" && e <= |pre| + |m.open| + |body|
    requires m.Valid()
    ensures var t := generated + merged[e..]; |t| > |m.close| && At(t, |t| - |m.close| - 1, m.close)
  {
    var front := pre + m.open + body;
    var t := generated + merged[e..];
    assert merged == front + (m.close + "\n");
    assert merged[e..] == front[e..] + (m.close + "\n");
    assert t == generated + front[e..] + m.close + "\n";
    var i := |t| - |m.close| - 1;
    assert t[i..i + |m.close|] == m.close;
    AtSlice(t, i, m.close);
  }

  // ---------------------------------------------------------------- where markers stay

  /** Trimming keeps every marker. */
  lemma TrimKeeps(s: string, i: nat, p: string)
    requires IsMarker(p) && At(s, i, p)
    ensures Contains(Trim(s), p)
  {
    KeptByTrimStart(s, i, p);
    var u := TrimStart(s);
    TrimEndShape(u);
    TrimEndKeeps(u, i - (|s| - |u|), p);
    KeptIn(u, TrimEnd(u), i - (|s| - |u|), p);
  }

  lemma KeptByTrimStart(s: string, i: nat, p: string)
    requires IsMarker(p) && At(s, i, p)
    ensures var lead := |s| - |TrimStart(s)|; lead <= i && At(TrimStart(s), i - lead, p)
  {
    var u := TrimStart(s);
    TrimStartShape(s);
    var lead := |s| - |u|;
    AtChar(s, i, p, 0);
    forall x | 0 <= x < lead
      ensures IsSpace(s[x])
    {
      assert s[..lead][x] == s[x];
    }
    assert s == s[..lead] + u;
    AtSuffix(s[..lead], u, i - lead, p);
  }

  lemma KeptIn(s: string, t: string, i: int, p: string)
    requires t <= s && At(s, i, p) && i + |p| <= |t|
    ensures Contains(t, p)
  {
    AtPrefix(t, s[|t|..], i, p);
    assert s == t + s[|t|..];
  }

  /** Trimming brings no marker in. */
  lemma TrimLacks(s: string, p: string)
    requires !Contains(s, p)
    ensures !Contains(Trim(s), p)
  {
    var a, b := TrimSplit(s);
    var t := Trim(s);
    assert a + t + b == a + (t + b);
    forall i | 0 <= i <= |t|
      ensures !At(t, i, p)
    {
      if i + |p| <= |t| {
        AtPrefix(t, b, i, p);
        AtSuffix(a, t + b, i, p);
        assert |a| + i <= |s|;
      }
    }
  }

  /** The last merge wins exactly on the texts a caller can recognise as mergeable beforehand, and for bodies
      that do not end their own section. Nothing is asked of what is merged last. */
  lemma LastMergeWins(m: Markers, existing: string, body: string, generated: string)
    requires m.Valid()
    ensures m.Merge(m.Merge(existing, m.Section(body)), generated) == m.Merge(existing, generated)
            <==> m.Mergeable(existing) && !Contains(body, m.close)
  {
    Cases(m, existing, body, generated);
  }

  /** Reading back after a merge gives the trimmed body exactly for the same texts and bodies. */
  lemma ExtractReadsBack(m: Markers, existing: string, body: string)
    requires m.Valid()
    ensures m.Extract(m.Merge(existing, m.Section(body))) == Some(Trim(body))
            <==> m.Mergeable(existing) && !Contains(body, m.close)
  {
    Cases(m, existing, body, "");
  }

  lemma Cases(m: Markers, existing: string, body: string, generated: string)
    requires m.Valid()
    ensures m.Mergeable(existing) && !Contains(body, m.close)
            <==> m.Merge(m.Merge(existing, m.Section(body)), generated) == m.Merge(existing, generated)
    ensures m.Mergeable(existing) && !Contains(body, m.close)
            <==> m.Extract(m.Merge(existing, m.Section(body))) == Some(Trim(body))
  {
    var start, end := Find(existing, m.open), Find(existing, m.close);
    if m.Mergeable(existing) {
      if Contains(body, m.close) {
        EarlyCloseGrows(m, existing, body, generated);
      } else {
        MergeTwiceMergeable(m, existing, body, generated);
      }
    } else if start.Some? && end.Some? {
      MarkersDiffer(m, existing, start.value);
      WrongOrderGrows(m, existing, body, generated);
    } else if start.None? {
      OnlyCloseDuplicates(m, existing, body, generated);
    } else if Contains(body, m.close) {
      OnlyOpenEarlyClose(m, existing, body, generated);
    } else {
      OnlyOpenSwallows(m, existing, body, generated);
    }
  }
}
