/** Finding the brace-delimited blocks of a keyword in source text. */
module KeywordBlocks {
  import opened Text

  /** A block: where its keyword starts, its name, its opening and its closing brace. */
  datatype Block = Block(start: nat, name: string, open: nat, close: nat)

  /** The position of the first non-space character at or after `i`. */
  function SkipSpace(s: string, i: nat): (r: nat)
    requires i <= |s|
    ensures i <= r <= |s| && (forall k | i <= k < r :: IsSpace(s[k])) && (r < |s| ==> !IsSpace(s[r]))
    decreases |s| - i
  {
    if i < |s| && IsSpace(s[i]) then SkipSpace(s, i + 1) else i
  }

  /** The end of the identifier that starts at `i`. */
  function WordEnd(s: string, i: nat): (r: nat)
    requires i <= |s|
    ensures i <= r <= |s| && (forall k | i <= k < r :: IsWordChar(s[k])) && (r < |s| ==> !IsWordChar(s[r]))
    decreases |s| - i
  {
    if i < |s| && IsWordChar(s[i]) then WordEnd(s, i + 1) else i
  }

  function LineStart(s: string, i: nat): (r: nat)
    requires i <= |s|
    ensures IsLineStart(s, i, r)
  {
    if i == 0 || s[i - 1] == '\n' then i else LineStart(s, i - 1)
  }

  /** The line of position `i` starts at `l`. */
  predicate IsLineStart(s: string, i: nat, l: nat) {
    l <= i <= |s| && (l == 0 || s[l - 1] == '\n') && forall k | l <= k < i :: s[k] != '\n'
  }

  /** Two slashes stand before `i` on its line, with only white space before them. */
  ghost predicate Commented(s: string, i: nat) {
    exists l, p :: CommentOpens(s, i, l, p)
  }

  predicate CommentOpens(s: string, i: nat, l: nat, p: nat) {
    && IsLineStart(s, i, l) && l <= p && p + 1 < i && s[p] == '/' && s[p + 1] == '/'
    && forall k | l <= k < p :: IsSpace(s[k])
  }

  /** The line of position `i` starts with a line comment. */
  predicate InComment(s: string, i: nat)
    requires i <= |s|
  {
    var p := SkipSpace(s[..i], LineStart(s, i));
    p + 1 < i && s[p] == '/' && s[p + 1] == '/'
  }

  lemma InCommentExactly(s: string, i: nat)
    requires i <= |s|
    ensures InComment(s, i) <==> Commented(s, i)
  {
    var line, before := LineStart(s, i), s[..i];
    var first := SkipSpace(before, line);
    if InComment(s, i) {
      forall k | line <= k < first ensures IsSpace(s[k]) { assert before[k] == s[k]; }
      assert CommentOpens(s, i, line, first);
    }
    if Commented(s, i) {
      var l: nat, p: nat :| CommentOpens(s, i, l, p);
      OneLineStart(s, i, l, line);
      assert before[p] == '/';
      FirstOnLine(before, line, first, p);
    }
  }

  lemma OneLineStart(s: string, i: nat, l: nat, m: nat)
    requires IsLineStart(s, i, l) && IsLineStart(s, i, m)
    ensures l == m
  {}

  lemma FirstOnLine(before: string, line: nat, first: nat, p: nat)
    requires line <= first <= |before| && line <= p < |before| && !IsSpace(before[p])
    requires (forall k | line <= k < first :: IsSpace(before[k])) && (first < |before| ==> !IsSpace(before[first]))
    requires forall k | line <= k < p :: IsSpace(before[k])
    ensures first == p
  {}

  /** What stands between the end of a keyword and the opening brace of its block: white space only, and the block is
      called like the keyword; or white space, one whole word, which is the name, and white space. */
  ghost predicate Opens(s: string, keyword: string, after: nat, name: string, brace: nat) {
    && after <= brace < |s| && s[brace] == '{'
    && if AllSpaceIn(s, after, brace) then name == keyword
       else exists p, q :: after <= p < q <= brace && AllSpaceIn(s, after, p) && IsWordIn(s, p, q)
                           && AllSpaceIn(s, q, brace) && name == s[p..q]
  }

  predicate AllSpaceIn(s: string, i: nat, j: nat) {
    j <= |s| && forall k | i <= k < j :: IsSpace(s[k])
  }

  predicate IsWordIn(s: string, i: nat, j: nat) {
    j < |s| && (forall k | i <= k < j :: IsWordChar(s[k])) && !IsWordChar(s[j])
  }

  /** The name and the opening brace after a keyword that ends at `after`. */
  function Header(s: string, keyword: string, after: nat): (r: Option<(string, nat)>)
    requires after <= |s|
    ensures r.Some? ==> after <= r.value.1 < |s| && s[r.value.1] == '{'
  {
    var rest := SkipSpace(s, after);
    if rest == |s| || s[rest] == '=' || s[rest] == ':' then None
    else if s[rest] == '{' then Some((keyword, rest))
    else
      var nameEnd := WordEnd(s, rest);
      if nameEnd == rest || nameEnd == |s| then None
      else
        var brace := SkipSpace(s, nameEnd);
        if brace < |s| && s[brace] == '{' then Some((s[rest..nameEnd], brace)) else None
  }

  /** A keyword's name and brace are those of the only opening there is. */
  lemma HeaderExactly(s: string, keyword: string, after: nat, name: string, brace: nat)
    requires after <= |s|
    ensures Header(s, keyword, after) == Some((name, brace)) <==> Opens(s, keyword, after, name, brace)
  {
    if Header(s, keyword, after) == Some((name, brace)) {
      HeaderOpens(s, keyword, after);
    }
    if Opens(s, keyword, after, name, brace) {
      OpensHeader(s, keyword, after, name, brace);
    }
  }

  lemma HeaderOpens(s: string, keyword: string, after: nat)
    requires after <= |s| && Header(s, keyword, after).Some?
    ensures var (name, brace) := Header(s, keyword, after).value; Opens(s, keyword, after, name, brace)
  {
    var rest := SkipSpace(s, after);
    if s[rest] != '{' {
      assert IsWordIn(s, rest, WordEnd(s, rest));
      assert AllSpaceIn(s, after, rest);
    }
  }

  lemma OpensHeader(s: string, keyword: string, after: nat, name: string, brace: nat)
    requires after <= |s| && Opens(s, keyword, after, name, brace)
    ensures Header(s, keyword, after) == Some((name, brace))
  {
    if AllSpaceIn(s, after, brace) {
      SpaceEnds(s, after, brace);
    } else {
      var p: nat, q: nat :| after <= p < q <= brace && AllSpaceIn(s, after, p) && IsWordIn(s, p, q)
                            && AllSpaceIn(s, q, brace) && name == s[p..q];
      assert IsWordChar(s[p]);
      SpaceEnds(s, after, p);
      WordEnds(s, p, q);
      SpaceEnds(s, q, brace);
    }
  }

  lemma SpaceEnds(s: string, i: nat, j: nat)
    requires i <= j < |s| && AllSpaceIn(s, i, j) && !IsSpace(s[j])
    ensures SkipSpace(s, i) == j
  {}

  lemma WordEnds(s: string, i: nat, j: nat)
    requires i <= j && IsWordIn(s, i, j)
    ensures WordEnd(s, i) == j
  {}

  /** Opening minus closing braces in `s[i..j]`. */
  function Depth(s: string, i: nat, j: nat): int
    requires i <= j <= |s|
    decreases j
  {
    if i == j then 0
    else Depth(s, i, j - 1) + (if s[j - 1] == '{' then 1 else if s[j - 1] == '}' then -1 else 0)
  }

  /** `close` holds the brace that matches the opening brace at `open`. */
  ghost predicate Matches(s: string, open: nat, close: nat) {
    && open < close < |s| && s[open] == '{' && s[close] == '}'
    && Depth(s, open, close + 1) == 0
    && forall i | open < i <= close :: Depth(s, open, i) > 0
  }

  ghost predicate Unmatched(s: string, open: nat) {
    forall c :: !Matches(s, open, c)
  }

  /** The keyword occurs at `i` as a word of its own, outside a line comment. */
  predicate IsKeywordAt(s: string, keyword: string, i: nat) {
    && At(s, i, keyword)
    && (i > 0 ==> !IsWordChar(s[i - 1]))
    && (i + |keyword| < |s| ==> !IsWordChar(s[i + |keyword|]))
    && !InComment(s, i)
  }

  /** The keyword stands at `i` as a word of its own, and no comment begins before it on its line. */
  ghost predicate Stands(s: string, keyword: string, i: nat) {
    && At(s, i, keyword) && !Commented(s, i)
    && (i > 0 ==> !IsWordChar(s[i - 1]))
    && (i + |keyword| < |s| ==> !IsWordChar(s[i + |keyword|]))
  }

  lemma StandsExactly(s: string, keyword: string, i: nat)
    ensures IsKeywordAt(s, keyword, i) <==> Stands(s, keyword, i)
  {
    if At(s, i, keyword) {
      InCommentExactly(s, i);
    }
  }

  /** `b` is a block of the keyword. */
  ghost predicate IsBlock(s: string, keyword: string, b: Block) {
    && Stands(s, keyword, b.start)
    && Opens(s, keyword, b.start + |keyword|, b.name, b.open)
    && Matches(s, b.open, b.close)
  }

  /** The blocks are in source order and do not overlap. */
  ghost predicate Disjoint(blocks: seq<Block>) {
    forall i, j | 0 <= i < j < |blocks| :: blocks[i].close < blocks[j].start
  }

  /** Block `b` is among `blocks`, or its keyword lies inside an earlier one of them. */
  ghost predicate Covered(blocks: seq<Block>, b: Block) {
    exists i :: 0 <= i < |blocks| && CoveredBy(blocks[i], b)
  }

  predicate CoveredBy(c: Block, b: Block) {
    c == b || c.start < b.start <= c.close
  }

  /** Blocks of the kind `P` only, and disjoint. */
  ghost predicate Sound(P: Block -> bool, blocks: seq<Block>) {
    && (forall i | 0 <= i < |blocks| :: P(blocks[i]))
    && Disjoint(blocks)
  }

  /** `blocks` is what a left-to-right scan for `P` reports: it is sound and misses none. */
  ghost predicate IsScanOf(P: Block -> bool, blocks: seq<Block>) {
    && Sound(P, blocks)
    && forall b {:trigger Covered(blocks, b)} | P(b) :: Covered(blocks, b)
  }

  /** The scan for the blocks of a keyword. */
  ghost predicate IsScan(s: string, keyword: string, blocks: seq<Block>) {
    IsScanOf(b => IsBlock(s, keyword, b), blocks)
  }

  ghost predicate InBounds(s: string, blocks: seq<Block>) {
    forall i | 0 <= i < |blocks| :: blocks[i].open < blocks[i].close < |s|
  }

  /** The source's result for a list of blocks: their names and the text between their braces. */
  ghost function Contents(s: string, blocks: seq<Block>): (r: seq<(string, string)>)
    requires InBounds(s, blocks)
    ensures |r| == |blocks|
  {
    seq(|blocks|, i requires 0 <= i < |blocks| => (blocks[i].name, s[blocks[i].open + 1..blocks[i].close]))
  }

  lemma DepthStep(s: string, i: nat, j: nat)
    requires i <= j < |s|
    ensures Depth(s, i, j + 1) == Depth(s, i, j) + (if s[j] == '{' then 1 else if s[j] == '}' then -1 else 0)
  {}

  lemma {:induction false} DepthSplit(s: string, i: nat, j: nat, k: nat)
    requires i <= j <= k <= |s|
    ensures Depth(s, i, k) == Depth(s, i, j) + Depth(s, j, k)
    decreases k
  {
    if j < k {
      DepthSplit(s, i, j, k - 1);
    }
  }

  /** A brace has at most one match. */
  lemma MatchUnique(s: string, open: nat, c: nat, d: nat)
    requires Matches(s, open, c) && Matches(s, open, d)
    ensures c == d
  {
    assert Depth(s, open, c + 1) == 0 && Depth(s, open, d + 1) == 0;
  }

  /** The content of a block is balanced: its running depth never goes below zero and ends at zero. */
  lemma ContentBalanced(s: string, open: nat, close: nat, i: nat)
    requires Matches(s, open, close) && open < i <= close
    ensures Depth(s, open + 1, i) >= 0 && Depth(s, open + 1, close) == 0
  {
    DepthStep(s, open, open);
    DepthSplit(s, open, open + 1, i);
    DepthSplit(s, open, open + 1, close);
  }

  /** Scan for the brace matching the one at `open`. */
  method MatchBrace(s: string, open: nat) returns (close: Option<nat>)
    requires open < |s| && s[open] == '{'
    ensures close.Some? ==> Matches(s, open, close.value)
    ensures close.None? ==> Unmatched(s, open)
  {
    var depth := 0;
    close := None;
    var i := open;
    while i < |s|
      invariant open <= i <= |s|
      invariant depth == Depth(s, open, i)
      invariant forall j | open < j <= i :: Depth(s, open, j) > 0
    {
      DepthStep(s, open, i);
      match s[i] {
        case '{' => depth := depth + 1;
        case '}' =>
          depth := depth - 1;
          if depth == 0 {
            return Some(i);
          }
        case _ =>
      }
      i := i + 1;
    }
  }

  // ---------------------------------------------------------------- scanning from left to right

  /** A block is determined by where it starts. */
  ghost predicate Determined(P: Block -> bool) {
    forall b, c | P(b) && P(c) && b.start == c.start :: b == c
  }

  /** The state of the scan when everything before `upTo` has been searched. */
  ghost predicate Scanned(P: Block -> bool, blocks: seq<Block>, upTo: nat, complete: bool) {
    && Sound(P, blocks)
    && (forall i | 0 <= i < |blocks| :: blocks[i].close < upTo)
    && (complete ==> NoneMissed(P, blocks, upTo))
  }

  ghost predicate NoneMissed(P: Block -> bool, blocks: seq<Block>, upTo: nat) {
    forall b {:trigger Covered(blocks, b)} | P(b) :: b.start >= upTo || Covered(blocks, b)
  }

  lemma ScanAppends(P: Block -> bool, blocks: seq<Block>, from: nat, b: Block, complete: bool)
    requires Determined(P) && Scanned(P, blocks, from, complete) && from <= b.start <= b.close && P(b)
    requires forall c | P(c) :: c.start < from || b.start <= c.start
    ensures Scanned(P, blocks + [b], b.close + 1, complete)
  {
    var after := blocks + [b];
    forall c | complete && P(c)
      ensures c.start > b.close || Covered(after, c)
    {
      if c.start < b.start {
        assert Covered(blocks, c);
        var i :| 0 <= i < |blocks| && CoveredBy(blocks[i], c);
        assert after[i] == blocks[i];
      } else if c.start <= b.close {
        assert CoveredBy(after[|blocks|], c);
      }
    }
  }

  /** Two scans that agree on their first blocks agree on the next one. */
  lemma ScanNext(P: Block -> bool, xs: seq<Block>, ys: seq<Block>, n: nat)
    requires IsScanOf(P, xs) && IsScanOf(P, ys) && (forall i | 0 <= i < |ys| :: ys[i].start <= ys[i].close)
    requires n < |xs| && n <= |ys| && forall i | 0 <= i < n :: xs[i] == ys[i] && xs[i].start <= xs[i].close
    ensures n < |ys| && ys[n].start <= xs[n].start
  {
    assert Covered(ys, xs[n]);
    var j :| 0 <= j < |ys| && CoveredBy(ys[j], xs[n]);
    assert forall i | 0 <= i < n :: xs[i].close < xs[n].start;
    assert j >= n;
    assert j > n ==> ys[n].close < ys[j].start;
  }

  lemma {:induction false} ScanPrefix(P: Block -> bool, xs: seq<Block>, ys: seq<Block>, n: nat)
    requires Determined(P) && IsScanOf(P, xs) && IsScanOf(P, ys) && n <= |xs|
    requires forall b | P(b) :: b.start <= b.close
    ensures n <= |ys| && forall i | 0 <= i < n :: xs[i] == ys[i]
  {
    if n > 0 {
      ScanPrefix(P, xs, ys, n - 1);
      ScanNext(P, xs, ys, n - 1);
      ScanNext(P, ys, xs, n - 1);
      assert P(xs[n - 1]) && P(ys[n - 1]);
    }
  }

  // ---------------------------------------------------------------- the blocks of a keyword

  ghost predicate IsWord(keyword: string) {
    forall k | 0 <= k < |keyword| :: IsWordChar(keyword[k])
  }

  /** No block starts inside an occurrence of a keyword that is a word. */
  lemma NoBlockInside(s: string, keyword: string, i: nat, b: Block)
    requires At(s, i, keyword) && IsWord(keyword)
    ensures !(i < b.start < i + |keyword| && IsBlock(s, keyword, b))
  {
    AtChar(s, i, keyword, b.start - 1 - i);
  }

  lemma BlocksDetermined(s: string, keyword: string)
    ensures Determined(b => IsBlock(s, keyword, b))
    ensures forall b | IsBlock(s, keyword, b) :: b.start <= b.close
  {
    forall b, c | IsBlock(s, keyword, b) && IsBlock(s, keyword, c) && b.start == c.start
      ensures b == c
    {
      OneBlock(s, keyword, b, c);
    }
  }

  lemma OneBlock(s: string, keyword: string, b: Block, c: Block)
    requires IsBlock(s, keyword, b) && IsBlock(s, keyword, c) && b.start == c.start
    ensures b == c
  {
    OneOpening(s, keyword, b.start + |keyword|, b, c);
    MatchUnique(s, b.open, b.close, c.close);
  }

  lemma OneOpening(s: string, keyword: string, after: nat, b: Block, c: Block)
    requires after <= |s| && Opens(s, keyword, after, b.name, b.open) && Opens(s, keyword, after, c.name, c.open)
    ensures b.name == c.name && b.open == c.open
  {
    OpensHeader(s, keyword, after, b.name, b.open);
    OpensHeader(s, keyword, after, c.name, c.open);
  }

  lemma HeadedBlock(s: string, keyword: string, b: Block)
    requires IsKeywordAt(s, keyword, b.start) && Matches(s, b.open, b.close)
    requires Header(s, keyword, b.start + |keyword|) == Some((b.name, b.open))
    ensures IsBlock(s, keyword, b)
  {
    StandsExactly(s, keyword, b.start);
    HeaderOpens(s, keyword, b.start + |keyword|);
  }

  /** Keyword, header and closing brace are found at `i`. */
  ghost predicate Headed(s: string, keyword: string, i: nat) {
    && IsKeywordAt(s, keyword, i)
    && var header := Header(s, keyword, i + |keyword|);
       header.Some? && !Unmatched(s, header.value.1)
  }

  lemma BlockHeaded(s: string, keyword: string, b: Block)
    requires IsBlock(s, keyword, b)
    ensures Headed(s, keyword, b.start)
  {
    StandsExactly(s, keyword, b.start);
    OpensHeader(s, keyword, b.start + |keyword|, b.name, b.open);
    HasMatch(s, b.open, b.close);
  }

  lemma HasMatch(s: string, open: nat, close: nat)
    requires Matches(s, open, close)
    ensures !Unmatched(s, open)
  {}

  lemma NoneHere(s: string, keyword: string, i: nat)
    requires !Headed(s, keyword, i)
    ensures NoneAt(s, keyword, i)
  {
    forall b | IsBlock(s, keyword, b) ensures b.start != i {
      BlockHeaded(s, keyword, b);
    }
  }

  /** The block whose keyword stands at `i`, if one does. */
  method BlockAt(s: string, keyword: string, i: nat) returns (b: Option<Block>)
    requires At(s, i, keyword)
    ensures b.Some? ==> b.value.start == i && IsBlock(s, keyword, b.value)
    ensures b.None? ==> NoneAt(s, keyword, i)
  {
    if !IsKeywordAt(s, keyword, i) {
      NoneHere(s, keyword, i);
      return None;
    }
    var header := Header(s, keyword, i + |keyword|);
    if header.None? {
      NoneHere(s, keyword, i);
      return None;
    }
    var (name, brace) := header.value;
    var end := MatchBrace(s, brace);
    if end.None? {
      NoneHere(s, keyword, i);
      return None;
    }
    HeadedBlock(s, keyword, Block(i, name, brace, end.value));
    b := Some(Block(i, name, brace, end.value));
  }

  /** No block of the keyword starts at `i`. */
  ghost predicate NoneAt(s: string, keyword: string, i: nat) {
    forall b | IsBlock(s, keyword, b) :: b.start != i
  }

  /** An occurrence that opens no block is skipped. */
  lemma ScanSkips(s: string, keyword: string, blocks: seq<Block>, from: nat, found: nat)
    requires Scanned(b => IsBlock(s, keyword, b), blocks, from, IsWord(keyword))
    requires from <= found && At(s, found, keyword) && NoneAt(s, keyword, found)
    requires forall j | from <= j < found :: !At(s, j, keyword)
    ensures Scanned(b => IsBlock(s, keyword, b), blocks, found + |keyword|, IsWord(keyword))
  {
    forall b | IsWord(keyword) && IsBlock(s, keyword, b)
      ensures b.start >= found + |keyword| || Covered(blocks, b)
    {
      NoBlockInside(s, keyword, found, b);
      assert At(s, b.start, keyword);
    }
  }

  lemma BlockFound(s: string, keyword: string, blocks: seq<Block>, from: nat, b: Block)
    requires Scanned(c => IsBlock(s, keyword, c), blocks, from, IsWord(keyword))
    requires from <= b.start && IsBlock(s, keyword, b)
    requires forall j | from <= j < b.start :: !At(s, j, keyword)
    ensures Scanned(c => IsBlock(s, keyword, c), blocks + [b], b.close + 1, IsWord(keyword))
  {
    BlocksDetermined(s, keyword);
    forall c | IsBlock(s, keyword, c)
      ensures c.start < from || b.start <= c.start
    {
      assert At(s, c.start, keyword);
    }
    ScanAppends(c => IsBlock(s, keyword, c), blocks, from, b, IsWord(keyword));
  }

  lemma NothingLeft(s: string, keyword: string, blocks: seq<Block>, from: nat)
    requires Scanned(b => IsBlock(s, keyword, b), blocks, from, true) && keyword != ""
    requires from >= |s| || forall j | from <= j <= |s| :: !At(s, j, keyword)
    ensures IsScan(s, keyword, blocks)
  {
    forall b | IsBlock(s, keyword, b)
      ensures Covered(blocks, b)
    {
      assert At(s, b.start, keyword);
    }
  }

  lemma ContentsAppend(s: string, blocks: seq<Block>, b: Block)
    requires InBounds(s, blocks) && b.open < b.close < |s|
    ensures InBounds(s, blocks + [b])
    ensures Contents(s, blocks + [b]) == Contents(s, blocks) + [(b.name, s[b.open + 1..b.close])]
  {}

  /** `results` are the names and contents of `blocks`, which are blocks of the keyword, disjoint and in source
      order, and all of them if the keyword is a word. */
  ghost predicate IsReport(s: string, keyword: string, blocks: seq<Block>, results: seq<(string, string)>) {
    && Sound(b => IsBlock(s, keyword, b), blocks) && InBounds(s, blocks)
    && (IsWord(keyword) ==> IsScan(s, keyword, blocks))
    && results == Contents(s, blocks)
  }

  /** A reported text is what stands between the braces of its block, and its own braces match each other. */
  lemma ReportedText(s: string, keyword: string, blocks: seq<Block>, results: seq<(string, string)>, i: nat)
    requires IsReport(s, keyword, blocks, results) && i < |results|
    ensures |results| == |blocks|
    ensures var b, text := blocks[i], results[i].1;
      && results[i].0 == b.name
      && s == s[..b.open] + "{" + text + "}" + s[b.close + 1..]
      && Depth(text, 0, |text|) == 0 && forall k | 0 <= k <= |text| :: Depth(text, 0, k) >= 0
  {
    var b := blocks[i];
    assert IsBlock(s, keyword, b);
    BetweenBraces(s, b.open, b.close);
  }

  lemma BetweenBraces(s: string, open: nat, close: nat)
    requires Matches(s, open, close)
    ensures var text := s[open + 1..close];
      && s == s[..open] + "{" + text + "}" + s[close + 1..]
      && Depth(text, 0, |text|) == 0 && forall k | 0 <= k <= |text| :: Depth(text, 0, k) >= 0
  {
    var text := s[open + 1..close];
    assert "{" == [s[open]] && "}" == [s[close]];
    DepthSlice(s, open + 1, close, |text|);
    ContentBalanced(s, open, close, close);
    forall k | 0 <= k <= |text| ensures Depth(text, 0, k) >= 0 {
      DepthSlice(s, open + 1, close, k);
      ContentBalanced(s, open, close, open + 1 + k);
    }
  }

  lemma {:induction false} DepthSlice(s: string, i: nat, j: nat, k: nat)
    requires i + k <= j <= |s|
    ensures Depth(s[i..j], 0, k) == Depth(s, i, i + k)
    decreases k
  {
    if k > 0 {
      DepthSlice(s, i, j, k - 1);
    }
  }

  /** The scan. It reports disjoint blocks in source order, and for a keyword that is a word it misses none. */
  method FindKeywordBlocks(source: string, keyword: string) returns (results: seq<(string, string)>)
    requires keyword != ""
    ensures exists blocks :: IsReport(source, keyword, blocks, results)
  {
    results := [];
    ghost var blocks: seq<Block> := [];
    var searchFrom := 0;
    while searchFrom < |source|
      invariant searchFrom <= |source|
      invariant Scanned(b => IsBlock(source, keyword, b), blocks, searchFrom, IsWord(keyword))
      invariant InBounds(source, blocks) && results == Contents(source, blocks)
      decreases |source| - searchFrom
    {
      var found := FindFrom(source, keyword, searchFrom);
      if found.None? {
        break;
      }
      var absIdx := found.value;
      ghost var from := searchFrom;
      searchFrom := absIdx + |keyword|;
      var block := BlockAt(source, keyword, absIdx);
      if block.None? {
        ScanSkips(source, keyword, blocks, from, absIdx);
        continue;
      }
      var b := block.value;
      BlockFound(source, keyword, blocks, from, b);
      ContentsAppend(source, blocks, b);
      ghost var before := blocks;
      blocks := before + [b];
      results := results + [(b.name, source[b.open + 1..b.close])];
      searchFrom := b.close + 1;
    }
    if IsWord(keyword) {
      NothingLeft(source, keyword, blocks, searchFrom);
    }
    assert IsReport(source, keyword, blocks, results);
  }

  /** What the scan promises determines its result. */
  lemma ScanDetermined(s: string, keyword: string, xs: seq<Block>, ys: seq<Block>)
    requires IsScan(s, keyword, xs) && IsScan(s, keyword, ys)
    ensures xs == ys
  {
    BlocksDetermined(s, keyword);
    ScanPrefix(b => IsBlock(s, keyword, b), xs, ys, |xs|);
    ScanPrefix(b => IsBlock(s, keyword, b), ys, xs, |ys|);
  }

  /** For a keyword that is a word there is one right answer. */
  lemma ReportDetermined(s: string, keyword: string, xs: seq<Block>, rs: seq<(string, string)>,
                         ys: seq<Block>, qs: seq<(string, string)>)
    requires IsWord(keyword) && IsReport(s, keyword, xs, rs) && IsReport(s, keyword, ys, qs)
    ensures xs == ys && rs == qs
  {
    ScanDetermined(s, keyword, xs, ys);
  }
}
