/**
  * Markdown to HTML for Apple Notes (extension/src/markdown_render.ts): the
  * clean-up pass run before rendering, the code renderers and the inline
  * styles added to block tokens. markdown-it itself (tokenising and the
  * default renderer) is a parameter.
  */
module MarkdownRender {
  import opened Common
  import opened Text

  const CodeBlockStyle := "background:#f6f8fa;padding:12px;border-radius:8px;overflow:auto;white-space:pre-wrap;font-family:Menlo,Monaco,Consolas,\"Courier New\",monospace;font-size:12px;line-height:1.5;"
  const InlineCodeStyle := "background:#f6f8fa;padding:0 4px;border-radius:4px;font-family:Menlo,Monaco,Consolas,\"Courier New\",monospace;font-size:0.95em;"
  const BlockquoteStyle := "border-left:4px solid #d0d7de;padding:4px 12px;margin:8px 0;color:#4b5563;"
  const TableStyle := "border-collapse:collapse;width:100%;"
  const CellStyle := "border:1px solid #d0d7de;padding:6px 8px;"
  const ParaStyle := "margin:8px 0;line-height:1.6;"
  const ListStyle := "margin:8px 0 8px 20px;"

  /** Lines that read like the language label a copied code block leaves behind. */
  const LanguageLabels: seq<string> := [
    "bash", "shell", "sh", "zsh", "json", "yaml", "yml", "js", "ts",
    "javascript", "typescript", "python", "py", "html", "css", "sql"
  ]

  // ---------------------------------------------------------------------
  // Line endings

  /** CRLF first, then lone CR, each replaced by LF. */
  function NormalizeLineEndings(s: string): (r: string)
    ensures '\r' !in r
  {
    var r := ReplaceAll(ReplaceAll(s, "\r\n", "\n"), "\r", "\n");
    ReplaceCharRemoves(ReplaceAll(s, "\r\n", "\n"), '\r', "\n");
    r
  }

  /** One left-to-right pass: a CR with the LF after it, or a lone CR, becomes one LF. */
  function ConvertEol(s: string): string
    decreases |s|
  {
    if s == [] then []
    else if s[0] == '\r' then "\n" + ConvertEol(if |s| > 1 && s[1] == '\n' then s[2..] else s[1..])
    else [s[0]] + ConvertEol(s[1..])
  }

  /** The two global replacements amount to a single pass that turns every line break into LF. */
  lemma NormalizeLineEndingsIsConvertEol(s: string)
    ensures NormalizeLineEndings(s) == ConvertEol(s)
  {
    ReplacementsConvertEol(s);
  }

  lemma {:induction false} ReplacementsConvertEol(s: string)
    ensures ReplaceAll(ReplaceAll(s, "\r\n", "\n"), "\r", "\n") == ConvertEol(s)
    decreases |s|
  {
    if s == [] {
    } else if |s| < 2 {
      assert ReplaceAll(s, "\r\n", "\n") == s;
      ReplaceCharSingle(s[0], '\r', "\n");
      assert s == [s[0]] && s[1..] == [];
    } else {
      var crlf := s[..2] == "\r\n";
      var rest := if crlf then s[2..] else s[1..];
      var head: string := if crlf then "\n" else [s[0]];
      var inner := ReplaceAll(rest, "\r\n", "\n");
      assert ReplaceAll(s, "\r\n", "\n") == head + inner;
      ReplaceCharAppend(head, inner, '\r', "\n");
      ReplaceCharSingle(head[0], '\r', "\n");
      assert head == [head[0]];
      ReplacementsConvertEol(rest);
      assert ConvertEol(s) == ReplaceAll(head, "\r", "\n") + ConvertEol(rest) by {
        if crlf {
          assert s[0] == '\r' && s[1] == '\n';
        }
      }
    }
  }

  /** Text without CR passes through unchanged. */
  lemma {:induction false} ConvertEolNoCr(s: string)
    requires '\r' !in s
    ensures ConvertEol(s) == s
    decreases |s|
  {
    if s != [] {
      ConvertEolNoCr(s[1..]);
    }
  }

  // ---------------------------------------------------------------------
  // Which lines are kept

  predicate IsBlankLine(line: string) {
    Trim(JsWhitespace, line) == ""
  }

  /** A line that is only `[` or `]` once trimmed. */
  predicate IsBracketLine(line: string) {
    var t := Trim(JsWhitespace, line);
    t == "[" || t == "]"
  }

  /** A line that, trimmed and lower-cased, is one of the language labels. */
  predicate IsLanguageLabel(line: string) {
    ToLower(Trim(JsWhitespace, line)) in LanguageLabels
  }

  /** A line that opens a fenced code block. */
  predicate OpensFence(line: string) {
    StartsWith(Trim(JsWhitespace, line), "```")
  }

  /** After line i, and past blank lines only, a line opens a fence. */
  predicate FenceFollows(lines: seq<string>, i: nat)
    requires i < |lines|
  {
    exists j :: i < j < |lines| && OpensFence(lines[j]) && forall k :: i < k < j ==> IsBlankLine(lines[k])
  }

  /** Line i is removed: a lone bracket, or a language label standing just before a fence. */
  predicate Dropped(lines: seq<string>, i: nat)
    requires i < |lines|
  {
    IsBracketLine(lines[i]) || (IsLanguageLabel(lines[i]) && FenceFollows(lines, i))
  }

  /** Which lines are dropped, one mark per line. */
  function DropMarks(lines: seq<string>): (marks: seq<bool>)
    ensures |marks| == |lines| && forall i :: 0 <= i < |lines| ==> marks[i] == Dropped(lines, i)
  {
    seq(|lines|, i requires 0 <= i < |lines| => Dropped(lines, i))
  }

  /** The lines among the first n whose mark is not set, in order. */
  function Select(lines: seq<string>, marks: seq<bool>, n: nat): seq<string>
    requires n <= |lines| == |marks|
  {
    if n == 0 then [] else Select(lines, marks, n - 1) + (if marks[n - 1] then [] else [lines[n - 1]])
  }

  /** The positions of the unmarked lines among the first n. */
  function SelectIndices(marks: seq<bool>, n: nat): (ks: seq<nat>)
    requires n <= |marks|
    ensures forall k :: 0 <= k < |ks| ==> ks[k] < n
  {
    if n == 0 then [] else SelectIndices(marks, n - 1) + (if marks[n - 1] then [] else [n - 1])
  }

  /** The lines among the first n that the clean-up pass keeps, in order. */
  function KeptLines(lines: seq<string>, n: nat): seq<string>
    requires n <= |lines|
  {
    if n == 0 then [] else KeptLines(lines, n - 1) + (if Dropped(lines, n - 1) then [] else [lines[n - 1]])
  }

  /** Keeping the lines that are not dropped is selecting by the drop marks. */
  lemma {:induction false} KeptLinesAsSelect(lines: seq<string>, n: nat)
    requires n <= |lines|
    ensures KeptLines(lines, n) == Select(lines, DropMarks(lines), n)
  {
    if n > 0 {
      KeptLinesAsSelect(lines, n - 1);
    }
  }

  /** The selected lines are the lines at the selected positions. */
  lemma {:induction false} SelectAt(lines: seq<string>, marks: seq<bool>, n: nat)
    requires n <= |lines| == |marks|
    ensures |Select(lines, marks, n)| == |SelectIndices(marks, n)|
    ensures forall k :: 0 <= k < |SelectIndices(marks, n)| ==> Select(lines, marks, n)[k] == lines[SelectIndices(marks, n)[k]]
  {
    if n > 0 {
      SelectAt(lines, marks, n - 1);
      var ks := SelectIndices(marks, n - 1);
      var kl := Select(lines, marks, n - 1);
      var sel, picked := SelectIndices(marks, n), Select(lines, marks, n);
      if !marks[n - 1] {
        assert sel == ks + [n - 1];
        assert picked == kl + [lines[n - 1]];
        forall k | 0 <= k < |sel|
          ensures picked[k] == lines[sel[k]]
        {
          if k < |ks| {
            assert sel[k] == ks[k] && picked[k] == kl[k];
          }
        }
      } else {
        assert sel == ks;
        assert picked == kl;
      }
    }
  }

  /** The selected positions increase strictly, so the selection keeps the order of the input. */
  lemma {:induction false} SelectIncreasing(marks: seq<bool>, n: nat)
    requires n <= |marks|
    ensures forall k, m :: 0 <= k < m < |SelectIndices(marks, n)| ==> SelectIndices(marks, n)[k] < SelectIndices(marks, n)[m]
  {
    if n > 0 {
      SelectIncreasing(marks, n - 1);
    }
  }

  /** A position is selected exactly when it is unmarked. */
  lemma {:induction false} SelectMembers(marks: seq<bool>, n: nat)
    requires n <= |marks|
    ensures forall i :: 0 <= i < n ==> (i in SelectIndices(marks, n) <==> !marks[i])
  {
    if n > 0 {
      SelectMembers(marks, n - 1);
      assert n - 1 !in SelectIndices(marks, n - 1);
    }
  }

  /**
    * The kept lines are the lines at strictly increasing positions, and a
    * position is among them exactly when its line is not dropped.
    */
  lemma KeptLinesSelect(lines: seq<string>)
    ensures var ks := SelectIndices(DropMarks(lines), |lines|); var kl := KeptLines(lines, |lines|);
      |kl| == |ks|
      && (forall k :: 0 <= k < |ks| ==> ks[k] < |lines| && kl[k] == lines[ks[k]])
      && (forall k, m :: 0 <= k < m < |ks| ==> ks[k] < ks[m])
      && (forall i :: 0 <= i < |lines| ==> (i in ks <==> !Dropped(lines, i)))
  {
    KeptLinesAsSelect(lines, |lines|);
    SelectAt(lines, DropMarks(lines), |lines|);
    SelectIncreasing(DropMarks(lines), |lines|);
    SelectMembers(DropMarks(lines), |lines|);
  }

  /** No kept line is a lone bracket. */
  lemma KeptLinesHaveNoBrackets(lines: seq<string>)
    ensures forall k :: 0 <= k < |KeptLines(lines, |lines|)| ==> !IsBracketLine(KeptLines(lines, |lines|)[k])
  {
    var kl := KeptLines(lines, |lines|);
    var ks := SelectIndices(DropMarks(lines), |lines|);
    KeptLinesSelect(lines);
    forall k | 0 <= k < |kl| ensures !IsBracketLine(kl[k]) {
      assert ks[k] in ks;
    }
  }

  /** A language label without a fence after it is kept. */
  lemma LabelWithoutFenceKept(lines: seq<string>, i: nat)
    requires i < |lines| && IsLanguageLabel(lines[i]) && !IsBracketLine(lines[i]) && !FenceFollows(lines, i)
    ensures i in SelectIndices(DropMarks(lines), |lines|)
  {
    KeptLinesSelect(lines);
  }

  /** Where the blank-line scan stops short of a fence, no fence follows. */
  lemma NoFenceFollows(lines: seq<string>, i: nat, j: nat)
    requires i < j <= |lines|
    requires forall k :: i < k < j ==> IsBlankLine(lines[k])
    requires j < |lines| ==> !IsBlankLine(lines[j]) && !OpensFence(lines[j])
    ensures !FenceFollows(lines, i)
  {
    if FenceFollows(lines, i) {
      assert false;
    }
  }

  // ---------------------------------------------------------------------
  // Runs of blank lines

  /** The number of LF characters `s` starts with. */
  function LeadingNewlines(s: string): (n: nat)
    ensures n <= |s| && (forall k :: 0 <= k < n ==> s[k] == '\n')
    ensures n < |s| ==> s[n] != '\n'
    decreases |s|
  {
    if s != [] && s[0] == '\n' then 1 + LeadingNewlines(s[1..]) else 0
  }

  /** `replace(/\n{3,}/g, '\n\n')`: every run of three or more LF becomes two. */
  function CollapseBlankRuns(s: string): string
    decreases |s|
  {
    if s == [] then []
    else
      var n := LeadingNewlines(s);
      if n >= 3 then "\n\n" + CollapseBlankRuns(s[n..]) else [s[0]] + CollapseBlankRuns(s[1..])
  }

  lemma ContainsCons(c: char, s: string, p: string)
    ensures Contains([c] + s, p) <==> StartsWith([c] + s, p) || Contains(s, p)
  {
    assert ([c] + s)[1..] == s;
  }

  /** Text starts with three LF exactly when it has at least three leading LF. */
  lemma StartsWithTriple(s: string)
    ensures StartsWith(s, "\n\n\n") <==> LeadingNewlines(s) >= 3
  {
    if |s| >= 3 && s[0] == '\n' && s[1] == '\n' && s[2] == '\n' {
      assert s[..3] == "\n\n\n";
      assert LeadingNewlines(s) == 1 + LeadingNewlines(s[1..]);
      assert LeadingNewlines(s[1..]) == 1 + LeadingNewlines(s[1..][1..]);
      assert LeadingNewlines(s[1..][1..]) == 1 + LeadingNewlines(s[1..][1..][1..]);
    }
  }

  lemma NoTripleCons(c: char, y: string)
    requires !Contains(y, "\n\n\n") && LeadingNewlines([c] + y) < 3
    ensures !Contains([c] + y, "\n\n\n")
  {
    ContainsCons(c, y, "\n\n\n");
    StartsWithTriple([c] + y);
  }

  /** Collapsing keeps up to two of the leading LF. */
  lemma {:induction false} CollapseLeading(s: string)
    ensures LeadingNewlines(CollapseBlankRuns(s)) == if LeadingNewlines(s) >= 3 then 2 else LeadingNewlines(s)
    decreases |s|
  {
    if s != [] {
      var n := LeadingNewlines(s);
      if n >= 3 {
        var y := CollapseBlankRuns(s[n..]);
        CollapseLeading(s[n..]);
        assert ("\n\n" + y)[1..] == "\n" + y;
        assert ("\n" + y)[1..] == y;
      } else {
        var y := CollapseBlankRuns(s[1..]);
        CollapseLeading(s[1..]);
        assert ([s[0]] + y)[1..] == y;
      }
    }
  }

  lemma LeadingCons(c: char, y: string)
    ensures LeadingNewlines([c] + y) == if c == '\n' then 1 + LeadingNewlines(y) else 0
  {
    assert ([c] + y)[1..] == y;
  }

  lemma NoTripleAfterPair(y: string)
    requires !Contains(y, "\n\n\n") && LeadingNewlines(y) == 0
    ensures !Contains("\n\n" + y, "\n\n\n")
  {
    LeadingCons('\n', y);
    NoTripleCons('\n', y);
    LeadingCons('\n', ['\n'] + y);
    NoTripleCons('\n', ['\n'] + y);
    assert "\n\n" + y == ['\n'] + (['\n'] + y);
  }

  /** After collapsing, no three LF stand in a row. */
  lemma {:induction false} CollapseNoTriple(s: string)
    ensures !Contains(CollapseBlankRuns(s), "\n\n\n")
    decreases |s|
  {
    if s != [] {
      var n := LeadingNewlines(s);
      if n >= 3 {
        CollapseNoTriple(s[n..]);
        CollapseLeading(s[n..]);
        NoTripleAfterPair(CollapseBlankRuns(s[n..]));
      } else {
        CollapseNoTriple(s[1..]);
        CollapseLeading(s);
        NoTripleCons(s[0], CollapseBlankRuns(s[1..]));
      }
    }
  }

  /** Collapsing adds no character other than LF. */
  lemma {:induction false} CollapseKeepsAbsent(s: string, d: char)
    requires d != '\n' && d !in s
    ensures d !in CollapseBlankRuns(s)
    decreases |s|
  {
    if s != [] {
      var n := LeadingNewlines(s);
      if n >= 3 {
        CollapseKeepsAbsent(s[n..], d);
      } else {
        CollapseKeepsAbsent(s[1..], d);
      }
    }
  }

  /** A slice has no substring and no character its text lacks. */
  lemma SliceKeeps(s: string, k: nat, m: nat, p: string, d: char)
    requires k + m <= |s| && !Contains(s, p) && d !in s
    ensures !Contains(s[k..k + m], p) && d !in s[k..k + m]
  {
    var t := s[k..k + m];
    if Contains(t, p) {
      var i := ContainsWitness(t, p);
      SliceOfSlice(s, k, m, i, i + |p|);
      ContainsAt(s, p, k + i);
    }
    assert forall c :: c in t ==> c in s;
  }

  // ---------------------------------------------------------------------
  // The clean-up pass

  /**
    * What the clean-up pass produces: line breaks unified, bracket lines and
    * labels before fences dropped, blank-line runs shortened, ends trimmed.
    */
  function NormalizedMarkdown(markdown: string): string
  {
    var lines := Split(NormalizeLineEndings(markdown), '\n');
    Trim(JsWhitespace, CollapseBlankRuns(Join(KeptLines(lines, |lines|), "\n")))
  }

  /** The cleaned-up text has no CR, no three LF in a row and no whitespace at its ends. */
  lemma NormalizedShape(markdown: string)
    ensures var r := NormalizedMarkdown(markdown);
      '\r' !in r && !Contains(r, "\n\n\n") &&
      (r != [] ==> !IsSpace(JsWhitespace, r[0]) && !IsSpace(JsWhitespace, r[|r| - 1]))
  {
    var lines := Split(NormalizeLineEndings(markdown), '\n');
    var collapsed := CollapseBlankRuns(Join(KeptLines(lines, |lines|), "\n"));
    KeptLinesAsSelect(lines, |lines|);
    NormalizedFacts(markdown, lines, DropMarks(lines), collapsed);
    TrimEnds(JsWhitespace, collapsed);
  }

  lemma NormalizedFacts(markdown: string, lines: seq<string>, marks: seq<bool>, collapsed: string)
    requires lines == Split(NormalizeLineEndings(markdown), '\n') && |marks| == |lines|
    requires collapsed == CollapseBlankRuns(Join(Select(lines, marks, |lines|), "\n"))
    ensures '\r' !in Trim(JsWhitespace, collapsed) && !Contains(Trim(JsWhitespace, collapsed), "\n\n\n")
  {
    SplitKeepsAbsent(NormalizeLineEndings(markdown), '\n', '\r');
    SelectKeepsAbsent(lines, marks, '\r');
    var joined := Join(Select(lines, marks, |lines|), "\n");
    CollapseKeepsAbsent(joined, '\r');
    CollapseNoTriple(joined);
    TrimKeeps(collapsed, "\n\n\n", '\r');
  }

  lemma SelectKeepsAbsent(lines: seq<string>, marks: seq<bool>, d: char)
    requires |marks| == |lines| && d != '\n'
    requires forall k :: 0 <= k < |lines| ==> d !in lines[k]
    ensures d !in Join(Select(lines, marks, |lines|), "\n")
  {
    var kept := Select(lines, marks, |lines|);
    SelectAt(lines, marks, |lines|);
    var ks := SelectIndices(marks, |lines|);
    forall k | 0 <= k < |kept| ensures d !in kept[k] {
      assert kept[k] == lines[ks[k]];
    }
    JoinKeepsAbsent(kept, "\n", d);
  }

  lemma TrimKeeps(s: string, p: string, d: char)
    requires !Contains(s, p) && d !in s
    ensures !Contains(Trim(JsWhitespace, s), p) && d !in Trim(JsWhitespace, s)
  {
    var k := TrimSlice(JsWhitespace, s);
    SliceKeeps(s, k, |Trim(JsWhitespace, s)|, p, d);
  }

  /** A lone bracket is dropped. */
  lemma BracketDropped(lines: seq<string>, i: nat)
    requires i < |lines| && IsBracketLine(lines[i])
    ensures KeptLines(lines, i + 1) == KeptLines(lines, i)
  {
  }

  /** A label with only blank lines between it and an opening fence is dropped. */
  lemma LabelDropped(lines: seq<string>, i: nat, j: nat)
    requires i < j < |lines| && IsLanguageLabel(lines[i]) && OpensFence(lines[j])
    requires forall k :: i < k < j ==> IsBlankLine(lines[k])
    ensures KeptLines(lines, i + 1) == KeptLines(lines, i)
  {
    assert FenceFollows(lines, i);
  }

  /** Any other line is kept. */
  lemma LineKept(lines: seq<string>, i: nat)
    requires i < |lines| && !IsBracketLine(lines[i])
    requires IsLanguageLabel(lines[i]) ==> !FenceFollows(lines, i)
    ensures KeptLines(lines, i + 1) == KeptLines(lines, i) + [lines[i]]
  {
  }

  /** The first line at or after `from` that is not blank, or `|lines|`. */
  method SkipBlankLines(lines: seq<string>, from: nat) returns (j: nat)
    requires from <= |lines|
    ensures from <= j <= |lines|
    ensures forall k :: from <= k < j ==> IsBlankLine(lines[k])
    ensures j < |lines| ==> !IsBlankLine(lines[j])
  {
    j := from;
    while j < |lines| && Trim(JsWhitespace, lines[j]) == ""
      invariant from <= j <= |lines|
      invariant forall k :: from <= k < j ==> IsBlankLine(lines[k])
    {
      j := j + 1;
    }
  }

  /** The scan of `normalizeMarkdown`: each line is dropped or kept, looking past blank lines after a label. */
  method KeepLines(lines: seq<string>) returns (out: seq<string>)
    ensures out == KeptLines(lines, |lines|)
  {
    out := [];
    var i := 0;
    while i < |lines|
      invariant 0 <= i <= |lines|
      invariant out == KeptLines(lines, i)
    {
      var line := lines[i];
      var trimmed := Trim(JsWhitespace, line);
      if trimmed == "[" || trimmed == "]" {
        BracketDropped(lines, i);
        i := i + 1;
        continue;
      }
      if ToLower(trimmed) in LanguageLabels {
        var j := SkipBlankLines(lines, i + 1);
        if j < |lines| && OpensFence(lines[j]) {
          LabelDropped(lines, i, j);
          i := i + 1;
          continue;
        }
        NoFenceFollows(lines, i, j);
      }
      LineKept(lines, i);
      out := out + [line];
      i := i + 1;
    }
  }

  /** `normalizeMarkdown`: unify line breaks, split into lines, scan, join, shorten blank runs and trim. */
  method NormalizeMarkdown(markdown: string) returns (r: string)
    ensures r == NormalizedMarkdown(markdown)
  {
    var raw := NormalizeLineEndings(markdown);
    var lines := Split(raw, '\n');
    var out := KeepLines(lines);
    r := Trim(JsWhitespace, CollapseBlankRuns(Join(out, "\n")));
  }

  /** A language label is never a bracket line: no label is `[` or `]`. */
  lemma LabelNotBracket(line: string)
    requires IsLanguageLabel(line)
    ensures !IsBracketLine(line)
  {
    assert forall w :: w in LanguageLabels ==> |w| >= 2;
  }

  /** A line that opens a fence is not a bracket line. */
  lemma FenceNotBracket(line: string)
    requires OpensFence(line)
    ensures !IsBracketLine(line)
  {
  }

  /** A bracket line right after line i stops the look-ahead: no fence follows line i. */
  lemma BracketBlocksFence(lines: seq<string>, i: nat)
    requires i + 1 < |lines| && IsBracketLine(lines[i + 1])
    ensures !FenceFollows(lines, i)
  {
    assert !IsBlankLine(lines[i + 1]) && !OpensFence(lines[i + 1]);
  }

  /**
    * The line pass is not idempotent: a bracket line standing between a label
    * and its fence shields the label on the first pass ...
    */
  lemma BracketShieldsLabel(labelLine: string, bracket: string, fence: string)
    requires IsLanguageLabel(labelLine) && IsBracketLine(bracket) && OpensFence(fence)
    ensures KeptLines([labelLine, bracket, fence], 3) == [labelLine, fence]
  {
    var ls := [labelLine, bracket, fence];
    LabelNotBracket(labelLine);
    FenceNotBracket(fence);
    BracketBlocksFence(ls, 0);
    LineKept(ls, 0);
    BracketDropped(ls, 1);
    LineKept(ls, 2);
  }

  /** ... and once the bracket is gone, a second pass drops the label too. */
  lemma LabelDroppedOnSecondPass(labelLine: string, fence: string)
    requires IsLanguageLabel(labelLine) && OpensFence(fence)
    ensures KeptLines([labelLine, fence], 2) == [fence]
  {
    var ls := [labelLine, fence];
    LabelDropped(ls, 0, 1);
    FenceNotBracket(fence);
    LineKept(ls, 1);
  }

  /** A label line followed by a blank line and an opening fence is dropped. */
  lemma LabelBeforeFenceDropped(labelLine: string, blank: string, fence: string)
    requires IsLanguageLabel(labelLine) && IsBlankLine(blank) && OpensFence(fence)
    ensures Dropped([labelLine, blank, fence], 0)
  {
    var ls := [labelLine, blank, fence];
    assert OpensFence(ls[2]) && forall k :: 0 < k < 2 ==> IsBlankLine(ls[k]);
  }

  /** `bash` is a language label. */
  lemma BashIsLabel(line: string)
    requires line == "bash"
    ensures IsLanguageLabel(line)
  {
    LetterNotJsSpace(line[0]);
    LetterNotJsSpace(line[3]);
    TrimOfTrimmed(JsWhitespace, line);
    assert ToLower(line) == line;
  }

  // ---------------------------------------------------------------------
  // Code rendering

  /** The language of a fence: the first whitespace-separated word of its trimmed info string. */
  function FenceLanguage(info: string): (lang: string)
    ensures FirstRun(JsWhitespace, Trim(JsWhitespace, info), lang)
    ensures lang == "" <==> AllSpace(JsWhitespace, info)
  {
    var t := Trim(JsWhitespace, info);
    TrimEnds(JsWhitespace, info);
    SplitOnSpaceRuns(t)[0]
  }

  /** The opening of every rendered fence, up to the optional class attribute. */
  const FenceOpen := "<pre style=\"" + CodeBlockStyle + "\"><code"

  /** The opening of every rendered inline code span. */
  const InlineOpen := "<code style=\"" + InlineCodeStyle + "\">"

  /**
    * The fence renderer: a styled `<pre>` around the escaped code. The class
    * attribute names the escaped language exactly when the info string has one.
    */
  function RenderFence(info: string, content: string, escapeHtml: string -> string): (html: string)
    ensures StartsWith(html, FenceOpen)
    ensures EndsWith(html, escapeHtml(content) + "</code></pre>\n")
    ensures FenceLanguage(info) == "" ==> html == FenceOpen + ">" + escapeHtml(content) + "</code></pre>\n"
    ensures FenceLanguage(info) != "" ==>
      StartsWith(html, FenceOpen + " class=\"language-" + escapeHtml(FenceLanguage(info)) + "\">")
    ensures FenceLanguage(info) != "" ==>
      html == FenceOpen + " class=\"language-" + escapeHtml(FenceLanguage(info)) + "\">" + escapeHtml(content) + "</code></pre>\n"
  {
    var lang := FenceLanguage(info);
    var head := if lang != "" then FenceOpen + " class=\"language-" + escapeHtml(lang) + "\">" else FenceOpen + ">";
    Affixes(head, escapeHtml(content), "</code></pre>\n");
    if lang != "" then
      PrefixOfAppend(FenceOpen + " class=\"language-" + escapeHtml(lang), "\">");
      PrefixOfAppend(FenceOpen + " class=\"language-", escapeHtml(lang));
      PrefixOfAppend(FenceOpen, " class=\"language-");
      StartsWithTrans(FenceOpen, FenceOpen + " class=\"language-", FenceOpen + " class=\"language-" + escapeHtml(lang));
      StartsWithTrans(FenceOpen, FenceOpen + " class=\"language-" + escapeHtml(lang), head);
      StartsWithTrans(FenceOpen, head, head + escapeHtml(content) + "</code></pre>\n");
      StartsWithTrans(head, head + escapeHtml(content), head + escapeHtml(content) + "</code></pre>\n");
      head + escapeHtml(content) + "</code></pre>\n"
    else
      PrefixOfAppend(FenceOpen, ">");
      StartsWithTrans(FenceOpen, head, head + escapeHtml(content) + "</code></pre>\n");
      head + escapeHtml(content) + "</code></pre>\n"
  }

  /** The inline-code renderer: the escaped content, and nothing else, inside a styled `<code>`. */
  function RenderInlineCode(content: string, escapeHtml: string -> string): (html: string)
    ensures StartsWith(html, InlineOpen) && EndsWith(html, "</code>")
    ensures |html| == |InlineOpen| + |escapeHtml(content)| + |"</code>"|
    ensures html[|InlineOpen|..|html| - |"</code>"|] == escapeHtml(content)
  {
    Affixes(InlineOpen, escapeHtml(content), "</code>");
    InlineOpen + escapeHtml(content) + "</code>"
  }

  // ---------------------------------------------------------------------
  // Styled block tokens

  /** The token types the renderer styles, and every other type. */
  datatype TokenType =
    | BlockquoteOpen | TableOpen | ThOpen | TdOpen | ParagraphOpen
    | BulletListOpen | OrderedListOpen | OtherToken(name: string)

  /** The inline style each styled token type receives. */
  function StyleFor(t: TokenType): Option<string>
  {
    match t
    case BlockquoteOpen => Some(BlockquoteStyle)
    case TableOpen => Some(TableStyle)
    case ThOpen => Some(CellStyle)
    case TdOpen => Some(CellStyle)
    case ParagraphOpen => Some(ParaStyle)
    case BulletListOpen => Some(ListStyle)
    case OrderedListOpen => Some(ListStyle)
    case OtherToken(_) => None
  }

  /** The first position of an attribute called `name`, or `|attrs|`. */
  function AttrIndex(attrs: seq<(string, string)>, name: string): (i: nat)
    ensures i <= |attrs| && forall k :: 0 <= k < i ==> attrs[k].0 != name
    ensures i < |attrs| ==> attrs[i].0 == name
  {
    if attrs == [] then 0 else if attrs[0].0 == name then 0 else 1 + AttrIndex(attrs[1..], name)
  }

  /** A markdown-it token as the style hooks see it: its type and its attribute list. */
  class Token {
    var ttype: TokenType
    var attrs: seq<(string, string)>

    constructor (ttype: TokenType, attrs: seq<(string, string)>)
      ensures this.ttype == ttype && this.attrs == attrs
    {
      this.ttype := ttype;
      this.attrs := attrs;
    }

    /** `attrGet`: the value of the first attribute called `name`. */
    function AttrGet(name: string): Option<string>
      reads this
    {
      var i := AttrIndex(attrs, name);
      if i < |attrs| then Some(attrs[i].1) else None
    }

    /** `attrSet`: overwrite the first attribute called `name`, or append one. */
    method AttrSet(name: string, value: string)
      modifies this
      ensures AttrGet(name) == Some(value)
      ensures forall n :: n != name ==> AttrGet(n) == old(AttrGet(n))
      ensures |attrs| == |old(attrs)| + (if old(AttrGet(name)).None? then 1 else 0)
      ensures ttype == old(ttype)
    {
      var i := AttrIndex(attrs, name);
      if i < |attrs| {
        attrs := attrs[i := (name, value)];
        forall n | n != name ensures AttrGet(n) == old(AttrGet(n)) {
          AttrIndexUpdate(old(attrs), i, (name, value), n);
        }
        AttrIndexFound(attrs, i, name);
      } else {
        attrs := attrs + [(name, value)];
        forall n | n != name ensures AttrGet(n) == old(AttrGet(n)) {
          AttrIndexAppend(old(attrs), (name, value), n);
        }
        AttrIndexAppend(old(attrs), (name, value), name);
      }
    }
  }

  lemma AttrIndexFound(attrs: seq<(string, string)>, i: nat, name: string)
    requires i < |attrs| && attrs[i].0 == name && forall k :: 0 <= k < i ==> attrs[k].0 != name
    ensures AttrIndex(attrs, name) == i
  {
    if i > 0 {
      AttrIndexFound(attrs[1..], i - 1, name);
    }
  }

  lemma AttrIndexUpdate(attrs: seq<(string, string)>, i: nat, p: (string, string), n: string)
    requires i < |attrs| && attrs[i].0 == p.0 && n != p.0
    ensures AttrIndex(attrs[i := p], n) == AttrIndex(attrs, n)
  {
    if attrs[0].0 != n && i > 0 {
      assert attrs[i := p][1..] == attrs[1..][i - 1 := p];
      AttrIndexUpdate(attrs[1..], i - 1, p, n);
    }
  }

  lemma AttrIndexAppend(attrs: seq<(string, string)>, p: (string, string), n: string)
    ensures AttrIndex(attrs + [p], n) ==
      if AttrIndex(attrs, n) < |attrs| then AttrIndex(attrs, n) else if p.0 == n then |attrs| else |attrs| + 1
  {
    if attrs != [] {
      assert (attrs + [p])[1..] == attrs[1..] + [p];
      AttrIndexAppend(attrs[1..], p, n);
    }
  }

  /** The merged style: the existing one, a semicolon and the new one, or the new one alone when none is set. */
  function MergedStyle(existing: Option<string>, style: string): string
  {
    if existing.Some? && existing.value != "" then existing.value + ";" + style else style
  }

  /** `appendStyle`: the token's style attribute becomes the merged style; no other attribute changes. */
  method AppendStyle(token: Token, style: string)
    modifies token
    ensures token.AttrGet("style") == Some(MergedStyle(old(token.AttrGet("style")), style))
    ensures forall n :: n != "style" ==> token.AttrGet(n) == old(token.AttrGet(n))
    ensures token.ttype == old(token.ttype)
  {
    var existing := token.AttrGet("style");
    token.AttrSet("style", MergedStyle(existing, style));
  }

  /** The style hooks: a styled token type gets its style appended before the default renderer runs. */
  method StyleHook(token: Token)
    modifies token
    ensures StyleFor(token.ttype).Some? ==>
      token.AttrGet("style") == Some(MergedStyle(old(token.AttrGet("style")), StyleFor(token.ttype).value))
    ensures StyleFor(token.ttype).None? ==> token.attrs == old(token.attrs)
    ensures forall n :: n != "style" ==> token.AttrGet(n) == old(token.AttrGet(n))
    ensures token.ttype == old(token.ttype)
  {
    var style := StyleFor(token.ttype);
    if style.Some? {
      AppendStyle(token, style.value);
    }
  }

  /** Appending styles one after another to an unstyled token. */
  function AppendedStyles(existing: Option<string>, styles: seq<string>): string
    decreases |styles|
  {
    if styles == [] then (if existing.Some? then existing.value else "")
    else AppendedStyles(Some(MergedStyle(existing, styles[0])), styles[1..])
  }

  /** Non-empty styles appended one by one to a token with none end up joined by semicolons. */
  lemma {:induction false} AppendedStylesJoin(prefix: string, styles: seq<string>)
    requires prefix != "" && forall k :: 0 <= k < |styles| ==> styles[k] != ""
    ensures AppendedStyles(Some(prefix), styles) == Join([prefix] + styles, ";")
    decreases |styles|
  {
    if styles != [] {
      AppendedStylesJoin(prefix + ";" + styles[0], styles[1..]);
      JoinFold(prefix, styles[0], styles[1..]);
    } else {
      assert [prefix] + styles == [prefix];
    }
  }

  lemma {:induction false} JoinFold(a: string, b: string, rest: seq<string>)
    ensures Join([a + ";" + b] + rest, ";") == Join([a, b] + rest, ";")
    decreases |rest|
  {
    if rest == [] {
      assert [a + ";" + b] + rest == [a + ";" + b];
      assert [a, b] + rest == [a, b];
      assert Join([a, b], ";") == a + ";" + Join([b], ";");
    } else {
      var l := rest[|rest| - 1];
      var init := rest[..|rest| - 1];
      JoinFold(a, b, init);
      assert [a + ";" + b] + rest == ([a + ";" + b] + init) + [l];
      assert [a, b] + rest == ([a, b] + init) + [l];
      JoinAppend([a + ";" + b] + init, l, ";");
      JoinAppend([a, b] + init, l, ";");
    }
  }

  /** The whole of `renderMarkdownToHtml`: markdown-it's render applied to the cleaned-up text. */
  function RenderMarkdownToHtml(markdown: string, render: string -> string): (html: string)
    ensures exists cleaned :: cleaned == NormalizedMarkdown(markdown) && html == render(cleaned) && '\r' !in cleaned
  {
    NormalizedShape(markdown);
    render(NormalizedMarkdown(markdown))
  }
}
