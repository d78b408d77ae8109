/** Which texts are not policies, and why. */
module PolicyErrors {
  import opened Text
  import opened PolicyText

  /** Line `k` is the first that is neither a comment nor a rule, and no `end` stands before it. */
  ghost predicate FirstFault(body: seq<string>, k: nat, e: Error) {
    && k < |body| && !IsNote(body[k]) && body[k] != "end" && ParseRule(body[k]) == Err(e)
    && forall j | 0 <= j < k :: body[j] != "end" && (IsNote(body[j]) || ParseRule(body[j]).Ok?)
  }

  /** Only comments stand before the first `end`. */
  ghost predicate OnlyNotes(body: seq<string>) {
    exists n: nat :: NotesUpTo(body, n)
  }

  predicate NotesUpTo(body: seq<string>, n: nat) {
    n <= |body| && (n == |body| || body[n] == "end") && forall j | 0 <= j < n :: body[j] != "end" && IsNote(body[j])
  }

  lemma {:induction false} RulesFaultExactly(body: seq<string>, e: Error)
    ensures ParseRules(body) == Err(e) <==> exists k: nat :: FirstFault(body, k, e)
  {
    if body != [] && body[0] != "end" {
      var rest := body[1..];
      RulesFaultExactly(rest, e);
      if IsNote(body[0]) || ParseRule(body[0]).Ok? {
        if k: nat :| FirstFault(rest, k, e) {
          FaultBehind(body, k, e);
          assert FirstFault(body, k + 1, e);
        }
        if k: nat :| FirstFault(body, k, e) {
          assert k > 0;
          FaultBehind(body, k - 1, e);
        }
      } else {
        if ParseRules(body) == Err(e) {
          assert FirstFault(body, 0, e);
        }
        if k: nat :| FirstFault(body, k, e) {
          assert k == 0;
        }
      }
    }
  }

  lemma FaultBehind(body: seq<string>, k: nat, e: Error)
    requires body != [] && body[0] != "end" && (IsNote(body[0]) || ParseRule(body[0]).Ok?)
    ensures FirstFault(body[1..], k, e) <==> FirstFault(body, k + 1, e)
  {
    var rest := body[1..];
    forall j | 0 <= j < |rest| ensures rest[j] == body[j + 1] {}
    if FirstFault(body, k + 1, e) {
      forall j | 0 <= j < k ensures rest[j] != "end" && (IsNote(rest[j]) || ParseRule(rest[j]).Ok?) {
        assert rest[j] == body[j + 1];
      }
    }
    if FirstFault(rest, k, e) {
      forall j | 0 <= j < k + 1 ensures body[j] != "end" && (IsNote(body[j]) || ParseRule(body[j]).Ok?) {
        if j > 0 { assert body[j] == rest[j - 1]; }
      }
    }
  }

  lemma {:induction false} NoRulesExactly(body: seq<string>)
    ensures ParseRules(body) == Ok([]) <==> OnlyNotes(body)
  {
    if body == [] || body[0] == "end" {
      assert NotesUpTo(body, 0);
    } else {
      var rest := body[1..];
      NoRulesExactly(rest);
      if n: nat :| NotesUpTo(rest, n) && IsNote(body[0]) {
        forall j | 0 <= j < n + 1 ensures body[j] != "end" && IsNote(body[j]) {
          if j > 0 { assert body[j] == rest[j - 1]; }
        }
        assert NotesUpTo(body, n + 1);
      }
      if n: nat :| NotesUpTo(body, n) {
        assert n > 0 && IsNote(body[0]);
        forall j | 0 <= j < n - 1 ensures rest[j] != "end" && IsNote(rest[j]) { assert rest[j] == body[j + 1]; }
        assert NotesUpTo(rest, n - 1);
      }
    }
  }

  lemma TrimIsBlank(s: string)
    ensures Trim(s) == "" <==> AllSpace(s)
  {
    var a, b := TrimSplit(s);
    if AllSpace(s) {
      TrimAround(s, "", "");
      assert s + "" + "" == s;
    }
  }

  lemma {:induction false} BlankExactly(text: string)
    ensures Significant(Lines(text)) == [] <==> AllSpace(text)
  {
    if text != "" {
      var n := LineLen(text);
      FirstLine(text);
      if n == |text| {
        TrimIsBlank(text);
        assert [text][1..] == [];
        assert Significant([text][1..]) == [];
      } else {
        TrimIsBlank(text[..n]);
        BlankExactly(text[n + 1..]);
        SignificantFirst(text[..n], Lines(text[n + 1..]));
        BlankParts(text, n);
      }
    }
  }

  lemma SignificantFirst(l: string, rest: seq<string>)
    ensures Significant([l] + rest) == [] <==> Trim(l) == "" && Significant(rest) == []
  {
    assert ([l] + rest)[1..] == rest;
  }

  lemma BlankParts(text: string, n: nat)
    requires n < |text| && text[n] == '\n'
    ensures AllSpace(text) <==> AllSpace(text[..n]) && AllSpace(text[n + 1..])
  {
    if AllSpace(text[..n]) && AllSpace(text[n + 1..]) {
      forall i | 0 <= i < |text| ensures IsSpace(text[i]) {
        if i < n {
          assert text[..n][i] == text[i];
        } else if i > n {
          assert text[n + 1..][i - n - 1] == text[i];
        }
      }
    }
  }

  /** Why a text is no policy: it is empty or blank; its first line that is not blank does not begin with the keyword,
      or names nothing; a line before the first `end` is neither a comment nor a rule; or there are only comments. */
  ghost predicate Faulty(text: string, e: Error) {
    var lines := Significant(Lines(text));
    if AllSpace(text) then e == if text == "" then EmptyPolicy else OnlyWhiteSpace
    else
      lines != []
      && if !("policy" <= lines[0]) then e == HeaderMissing
         else if AllSpace(lines[0][6..]) then e == NameMissing
         else (exists k: nat :: FirstFault(lines[1..], k, e))
              || (OnlyNotes(lines[1..]) && e == NoRules(Trim(lines[0][6..])))
  }

  /** Parsing fails exactly for texts with a fault, and says which. */
  lemma PolicyErrorsExactly(text: string, e: Error)
    ensures ParsePolicy(text) == Err(e) <==> Faulty(text, e)
  {
    var lines := Significant(Lines(text));
    BlankExactly(text);
    if !AllSpace(text) && "policy" <= lines[0] {
      TrimIsBlank(lines[0][6..]);
      RulesFaultExactly(lines[1..], e);
      NoRulesExactly(lines[1..]);
    }
  }

  /** A comment begins with a number sign or with two slashes. */
  lemma NoteExactly(line: string)
    ensures IsNote(line) <==> exists t :: line == "#" + t || line == "//" + t
  {
    if IsNote(line) {
      if line[0] == '#' {
        assert line == "#" + line[1..];
      } else {
        assert line == "//" + line[2..];
      }
    }
    if t :| line == "#" + t || line == "//" + t {
      assert line == "//" + t ==> line[..2] == "//";
    }
  }

  /** A line without a blank has no target. */
  lemma NoTarget(line: string)
    requires !Contains(line, " ")
    ensures ParseRule(line) == Err(TargetMissing(line))
  {
    forall i | 0 <= i <= |line| ensures !At(line, i, WHEN) {
      WhenHasBlank(line, i);
    }
  }

  lemma WhenHasBlank(line: string, i: nat)
    ensures At(line, i, WHEN) ==> At(line, i, " ")
  {
    if At(line, i, WHEN) {
      AtChar(line, i, WHEN, 0);
      assert SameChar(line, i, " ", 0);
    }
  }
}
