/**
 * The String and Number prototype helpers: title-casing, per-word
 * capitalisation, indentation trimming, and the Markdown wrappers (bold,
 * back-tick, italic, fenced code block) plus superscript digits.
 * Case mapping is restricted to ASCII letters.
 */
module StringHelpers {
  import opened Strings
  import opened Wrappers

  // ---------------------------------------------------------------------------
  // toTitle and toCapitalize

  /** `toTitle`: the first character upper-cased, the rest unchanged; `""` stays `""`. */
  function ToTitle(s: string): (r: string)
    ensures |r| == |s|
    ensures s != "" ==> r[0] == UpperChar(s[0]) && r[1..] == s[1..]
  {
    if s == "" then "" else [UpperChar(s[0])] + s[1..]
  }

  lemma ToTitleIdempotent(s: string)
    ensures ToTitle(ToTitle(s)) == ToTitle(s)
  {
  }

  function TitleAll(words: seq<string>): (r: seq<string>)
    ensures |r| == |words|
    ensures forall k :: 0 <= k < |words| ==> r[k] == ToTitle(words[k])
  {
    seq(|words|, k requires 0 <= k < |words| => ToTitle(words[k]))
  }

  /** `toCapitalize`: split on `' '`, title-case every piece, join with `' '`. */
  function ToCapitalize(s: string): string {
    Join(TitleAll(Split(s, ' ')), ' ')
  }

  /** Position `i` of `s` begins a space-separated word. */
  predicate WordStart(s: string, i: int)
    requires 0 <= i < |s|
  {
    i == 0 || s[i - 1] == ' '
  }

  /** `t` is `j` with the first character of every space-separated word upper-cased. */
  predicate CapitalizedFrom(t: string, j: string) {
    |t| == |j| && forall i :: 0 <= i < |j| ==> t[i] == if WordStart(j, i) then UpperChar(j[i]) else j[i]
  }

  lemma TitleOneWord(p: string)
    requires ' ' !in p
    ensures CapitalizedFrom(ToTitle(p), p)
  {
    forall i | 0 <= i < |p| ensures p[i] != ' ' {
      assert p[i] in p;
    }
  }

  lemma TitleConcat(p: string, t': string, j': string)
    requires ' ' !in p
    requires CapitalizedFrom(t', j')
    ensures CapitalizedFrom(ToTitle(p) + [' '] + t', p + [' '] + j')
  {
    TitleOneWord(p);
    var t, j := ToTitle(p) + [' '] + t', p + [' '] + j';
    forall i | 0 <= i < |j|
      ensures t[i] == if WordStart(j, i) then UpperChar(j[i]) else j[i]
    {
      if i < |p| {
        assert t[i] == ToTitle(p)[i] && j[i] == p[i];
        if i > 0 { assert j[i - 1] == p[i - 1]; }
      } else if i > |p| {
        var i' := i - |p| - 1;
        assert j[i] == j'[i'] && t[i] == t'[i'];
        if i' > 0 { assert j[i - 1] == j'[i' - 1]; }
      }
    }
  }

  lemma {:induction false} JoinTitled(parts: seq<string>)
    requires |parts| >= 1
    requires forall k :: 0 <= k < |parts| ==> ' ' !in parts[k]
    ensures CapitalizedFrom(Join(TitleAll(parts), ' '), Join(parts, ' '))
  {
    if |parts| == 1 {
      TitleOneWord(parts[0]);
    } else {
      var rest := parts[1..];
      JoinTitled(rest);
      assert TitleAll(parts)[1..] == TitleAll(rest);
      TitleConcat(parts[0], Join(TitleAll(rest), ' '), Join(rest, ' '));
    }
  }

  /**
   * `toCapitalize` upper-cases exactly the first character of every
   * space-separated word, keeps every other character, and keeps the length
   * and the number of words.
   */
  lemma CapitalizeUppercasesWordStarts(s: string)
    ensures |ToCapitalize(s)| == |s|
    ensures forall i :: 0 <= i < |s| ==>
      ToCapitalize(s)[i] == if WordStart(s, i) then UpperChar(s[i]) else s[i]
    ensures |Split(ToCapitalize(s), ' ')| == |Split(s, ' ')|
  {
    var parts := Split(s, ' ');
    JoinSplit(s, ' ');
    JoinTitled(parts);
    var titled := TitleAll(parts);
    assert forall k :: 0 <= k < |titled| ==> ' ' !in titled[k];
    SplitJoin(titled, ' ');
  }

  // ---------------------------------------------------------------------------
  // trimIndent

  /** The indentation of every line that is not blank (`line.trim().length > 0`), in order. */
  function Indents(lines: seq<string>): (r: seq<nat>)
    ensures |r| <= |lines|
    ensures forall k :: 0 <= k < |lines| && !AllWhitespace(lines[k]) ==> LeadingWhitespace(lines[k]) in r
  {
    if |lines| == 0 then []
    else
      var rest := Indents(lines[1..]);
      assert forall k :: 1 <= k < |lines| ==> lines[k] == lines[1..][k - 1];
      if Trim(lines[0]) != "" then [LeadingWhitespace(lines[0])] + rest else rest
  }

  /** Every recorded indentation is that of a non-blank line. */
  lemma {:induction false} IndentsFromNonBlank(lines: seq<string>, x: nat)
    requires x in Indents(lines)
    ensures exists k :: 0 <= k < |lines| && !AllWhitespace(lines[k]) && LeadingWhitespace(lines[k]) == x
  {
    if Trim(lines[0]) != "" && x == LeadingWhitespace(lines[0]) {
      assert !AllWhitespace(lines[0]);
    } else {
      IndentsFromNonBlank(lines[1..], x);
      var k :| 0 <= k < |lines[1..]| && !AllWhitespace(lines[1..][k]) && LeadingWhitespace(lines[1..][k]) == x;
      assert lines[1..][k] == lines[k + 1];
    }
  }

  /** `Math.min(...xs)`, where `None` stands for the `Infinity` of an empty argument list. */
  function MinOf(xs: seq<nat>): (r: Option<nat>)
    ensures r.None? <==> xs == []
    ensures r.Some? ==> r.value in xs && forall x :: x in xs ==> r.value <= x
  {
    if |xs| == 0 then None
    else
      var rest := MinOf(xs[1..]);
      assert forall x :: x in xs ==> x == xs[0] || x in xs[1..];
      if rest.None? || xs[0] <= rest.value then Some(xs[0]) else rest
  }

  /** `line.slice(m)`; slicing from `Infinity` yields `""`. */
  function SliceFrom(line: string, m: Option<nat>): string {
    if m.None? || m.value >= |line| then "" else line[m.value..]
  }

  function Dedent(lines: seq<string>, m: Option<nat>): (r: seq<string>)
    ensures |r| == |lines|
    ensures forall k :: 0 <= k < |lines| ==> r[k] == SliceFrom(lines[k], m)
  {
    seq(|lines|, k requires 0 <= k < |lines| => SliceFrom(lines[k], m))
  }

  /** `trimIndent`: remove the smallest indentation of the non-blank lines from every line, then trim. */
  function TrimIndent(s: string): string {
    var lines := Split(s, '\n');
    Trim(Join(Dedent(lines, MinOf(Indents(lines))), '\n'))
  }

  lemma {:induction false} JoinAllWhitespace(parts: seq<string>)
    requires forall k :: 0 <= k < |parts| ==> AllWhitespace(parts[k])
    ensures AllWhitespace(Join(parts, '\n'))
  {
    if |parts| > 1 {
      JoinAllWhitespace(parts[1..]);
      var j := Join(parts, '\n');
      assert j == parts[0] + ['\n'] + Join(parts[1..], '\n');
      forall i | 0 <= i < |j| ensures IsWhitespace(j[i]) {
        if i < |parts[0]| { assert j[i] == parts[0][i]; }
        else if i > |parts[0]| { assert j[i] == Join(parts[1..], '\n')[i - |parts[0]| - 1]; }
      }
    }
  }

  lemma {:induction false} JoinKeepsNonWhitespace(parts: seq<string>, k: nat)
    requires k < |parts| && !AllWhitespace(parts[k])
    ensures !AllWhitespace(Join(parts, '\n'))
  {
    var j := Join(parts, '\n');
    if |parts| == 1 {
    } else {
      assert j == parts[0] + ['\n'] + Join(parts[1..], '\n');
      if k == 0 {
        var i :| 0 <= i < |parts[0]| && !IsWhitespace(parts[0][i]);
        assert j[i] == parts[0][i];
      } else {
        JoinKeepsNonWhitespace(parts[1..], k - 1);
        var j' := Join(parts[1..], '\n');
        var i :| 0 <= i < |j'| && !IsWhitespace(j'[i]);
        assert j[|parts[0]| + 1 + i] == j'[i];
      }
    }
  }

  /** Every line of a blank string is blank. */
  lemma BlankLines(s: string)
    requires AllWhitespace(s)
    ensures forall k :: 0 <= k < |Split(s, '\n')| ==> AllWhitespace(Split(s, '\n')[k])
  {
    var lines := Split(s, '\n');
    JoinSplit(s, '\n');
    forall k | 0 <= k < |lines| ensures AllWhitespace(lines[k]) {
      if !AllWhitespace(lines[k]) {
        JoinKeepsNonWhitespace(lines, k);
      }
    }
  }

  /** A string that is not blank has a line that is not blank. */
  lemma NonBlankLine(s: string) returns (k: nat)
    requires !AllWhitespace(s)
    ensures k < |Split(s, '\n')| && !AllWhitespace(Split(s, '\n')[k])
  {
    var lines := Split(s, '\n');
    JoinSplit(s, '\n');
    if forall k :: 0 <= k < |lines| ==> AllWhitespace(lines[k]) {
      JoinAllWhitespace(lines);
    }
    k :| 0 <= k < |lines| && !AllWhitespace(lines[k]);
  }

  lemma SliceFromBlank(line: string, m: Option<nat>)
    requires AllWhitespace(line)
    ensures AllWhitespace(SliceFrom(line, m))
  {
    if m.Some? && m.value < |line| {
      forall i | 0 <= i < |line| - m.value ensures IsWhitespace(line[m.value..][i]) {
        assert line[m.value..][i] == line[m.value + i];
      }
    }
  }

  lemma IndentOfNonBlank(line: string)
    requires !AllWhitespace(line)
    ensures LeadingWhitespace(line) < |line|
  {
    assert line[..|line|] == line;
  }

  lemma SliceFromKeepsText(line: string, m: nat)
    requires m <= LeadingWhitespace(line) < |line|
    ensures SliceFrom(line, Some(m))[LeadingWhitespace(line) - m] == line[LeadingWhitespace(line)]
    ensures !AllWhitespace(SliceFrom(line, Some(m)))
  {
  }

  /** `trimIndent` yields `""` exactly when the input is blank (then `Math.min()` is `Infinity`). */
  lemma TrimIndentEmptyIffBlank(s: string)
    ensures TrimIndent(s) == "" <==> AllWhitespace(s)
  {
    var lines := Split(s, '\n');
    var m := MinOf(Indents(lines));
    var dedented := Dedent(lines, m);
    assert TrimIndent(s) == Trim(Join(dedented, '\n'));
    if AllWhitespace(s) {
      BlankLines(s);
      forall k | 0 <= k < |dedented| ensures AllWhitespace(dedented[k]) {
        SliceFromBlank(lines[k], m);
      }
      JoinAllWhitespace(dedented);
    } else {
      var k := NonBlankLine(s);
      var n := LeadingWhitespace(lines[k]);
      assert n in Indents(lines);
      assert m.Some? && m.value <= n;
      IndentOfNonBlank(lines[k]);
      SliceFromKeepsText(lines[k], m.value);
      assert dedented[k] == SliceFrom(lines[k], m);
      JoinKeepsNonWhitespace(dedented, k);
    }
  }

  lemma IndentPrefixIsWhitespace(line: string, m: nat)
    requires !AllWhitespace(line) ==> m <= LeadingWhitespace(line)
    ensures AllWhitespace(line[..if m < |line| then m else |line|])
  {
    var e := if m < |line| then m else |line|;
    if !AllWhitespace(line) {
      assert line[..e] == line[..LeadingWhitespace(line)][..e];
    } else {
      forall i | 0 <= i < e ensures IsWhitespace(line[..e][i]) {
        assert line[..e][i] == line[i];
      }
    }
  }

  /**
   * `trimIndent` removes only whitespace: on every line the dropped prefix is
   * whitespace, and some non-blank line loses all of its indentation.
   */
  lemma TrimIndentDropsOnlyIndentation(s: string)
    requires !AllWhitespace(s)
    ensures var lines := Split(s, '\n');
      var m := MinOf(Indents(lines));
      && m.Some?
      && (forall k :: 0 <= k < |lines| ==>
            AllWhitespace(lines[k][..if m.value < |lines[k]| then m.value else |lines[k]|]))
      && (exists k :: 0 <= k < |lines| && !AllWhitespace(lines[k]) &&
            LeadingWhitespace(lines[k]) == m.value &&
            !IsWhitespace(SliceFrom(lines[k], m)[0]))
  {
    var lines := Split(s, '\n');
    var k0 := NonBlankLine(s);
    assert LeadingWhitespace(lines[k0]) in Indents(lines);
    var m := MinOf(Indents(lines));
    forall k | 0 <= k < |lines|
      ensures AllWhitespace(lines[k][..if m.value < |lines[k]| then m.value else |lines[k]|])
    {
      if !AllWhitespace(lines[k]) {
        assert LeadingWhitespace(lines[k]) in Indents(lines);
      }
      IndentPrefixIsWhitespace(lines[k], m.value);
    }
    IndentsFromNonBlank(lines, m.value);
    var k :| 0 <= k < |lines| && !AllWhitespace(lines[k]) && LeadingWhitespace(lines[k]) == m.value;
    IndentOfNonBlank(lines[k]);
    SliceFromKeepsText(lines[k], m.value);
  }

  // ---------------------------------------------------------------------------
  // Markdown wrappers

  /** `toCodeScript(type)`: a fenced block tagged with `type || ''`. */
  function ToCodeScript(s: string, codeType: Option<string>): string {
    "```" + codeType.GetOr("") + "\n" + s + "\n```"
  }

  function IndexOf(s: string, c: char): (r: Option<nat>)
    ensures r.None? <==> c !in s
    ensures r.Some? ==> r.value < |s| && s[r.value] == c && c !in s[..r.value]
  {
    if |s| == 0 then None
    else if s[0] == c then Some(0)
    else
      match IndexOf(s[1..], c)
      case None => None
      case Some(i) =>
        assert s[..i + 1] == [s[0]] + s[1..][..i];
        Some(i + 1)
  }

  /** Reads the tag and the text back out of a fenced block. */
  function ParseCodeScript(r: string): Option<(string, string)> {
    if |r| < 7 || r[..3] != "```" || r[|r| - 4..] != "\n```" then None
    else
      match IndexOf(r[3..], '\n')
      case None => None
      case Some(i) =>
        if 3 + i + 1 <= |r| - 4 then Some((r[3..3 + i], r[3 + i + 1..|r| - 4])) else None
  }

  /** A code block keeps its text and its tag (when the tag is a single line). */
  lemma CodeScriptRoundTrip(s: string, codeType: Option<string>)
    requires '\n' !in codeType.GetOr("")
    ensures ParseCodeScript(ToCodeScript(s, codeType)) == Some((codeType.GetOr(""), s))
  {
    var tag := codeType.GetOr("");
    var r := ToCodeScript(s, codeType);
    assert r[3..] == tag + "\n" + s + "\n```";
    assert r[3..][|tag|] == '\n';
    assert r[3..][..|tag|] == tag;
    assert IndexOf(r[3..], '\n') == Some(|tag|);
    assert r[3..3 + |tag|] == tag;
    assert r[3 + |tag| + 1..|r| - 4] == s;
  }

  /** `toBold`: every `*` removed, then wrapped in `**`. */
  function ToBold(s: string): (r: string)
    ensures |r| >= 4 && r[..2] == "**" && r[|r| - 2..] == "**"
    ensures '*' !in r[2..|r| - 2]
    ensures r[2..|r| - 2] == RemoveChar(s, '*')
  {
    "**" + RemoveChar(s, '*') + "**"
  }

  /** Bolding twice is bolding once: the inner markers are removed again. */
  lemma ToBoldIdempotent(s: string)
    ensures ToBold(ToBold(s)) == ToBold(s)
  {
    var inner := RemoveChar(s, '*');
    var stars := RemoveChar("**", '*');
    assert stars == "" by {
      assert "**"[1..] == "*";
      assert "*"[1..] == "";
    }
    RemoveCharAppend("**" + inner, "**", '*');
    RemoveCharAppend("**", inner, '*');
    assert RemoveChar(inner, '*') == inner;
    assert RemoveChar("**" + inner + "**", '*') == inner;
  }

  /** Some backslash is directly followed by a back-tick. */
  predicate HasEscapedBacktick(s: string) {
    exists i :: 0 <= i < |s| - 1 && s[i] == '\\' && s[i + 1] == '`'
  }

  /**
   * `replace(/\\`/g, '')`: delete every backslash-back-tick pair, scanning left
   * to right. Every other character is kept, and as many backslashes as
   * back-ticks go.
   */
  function RemoveEscapedBackticks(s: string): (r: string)
    ensures |r| <= |s| && (|s| - |r|) % 2 == 0
    ensures r == s <==> !HasEscapedBacktick(s)
  {
    if |s| == 0 then ""
    else if |s| >= 2 && s[0] == '\\' && s[1] == '`' then
      assert HasEscapedBacktick(s);
      RemoveEscapedBackticks(s[2..])
    else
      var rest := RemoveEscapedBackticks(s[1..]);
      assert HasEscapedBacktick(s) <==> HasEscapedBacktick(s[1..]) by {
        if HasEscapedBacktick(s) {
          var i :| 0 <= i < |s| - 1 && s[i] == '\\' && s[i + 1] == '`';
          assert i > 0;
          assert s[1..][i - 1] == '\\' && s[1..][i] == '`';
        }
        if HasEscapedBacktick(s[1..]) {
          var i :| 0 <= i < |s[1..]| - 1 && s[1..][i] == '\\' && s[1..][i + 1] == '`';
          assert s[i + 1] == '\\' && s[i + 2] == '`';
        }
      }
      assert [s[0]] + s[1..] == s;
      [s[0]] + rest
  }

  /** A text with its backslashes and back-ticks taken out: what removing escaped back-ticks never touches. */
  function Unescaped(s: string): string {
    RemoveChar(RemoveChar(s, '\\'), '`')
  }

  /** Removal keeps every character but backslashes and back-ticks, in order. */
  lemma {:induction false} RemoveEscapedBackticksKeeps(s: string)
    ensures Unescaped(RemoveEscapedBackticks(s)) == Unescaped(s)
  {
    if |s| >= 2 && s[0] == '\\' && s[1] == '`' {
      var t := s[2..];
      RemoveEscapedBackticksKeeps(t);
      assert s == "\\`" + t;
      Unescaped2("\\`", t);
      assert Unescaped("\\`") == "";
    } else if |s| > 0 {
      var t := s[1..];
      RemoveEscapedBackticksKeeps(t);
      var rt := RemoveEscapedBackticks(t);
      assert RemoveEscapedBackticks(s) == [s[0]] + rt;
      assert s == [s[0]] + t;
      Unescaped2([s[0]], t);
      Unescaped2([s[0]], rt);
    }
  }

  /** Removal takes out as many back-ticks as backslashes: half of what it removes each. */
  lemma {:induction false} RemoveEscapedBackticksBalanced(s: string, c: char)
    requires c == '\\' || c == '`'
    ensures var r := RemoveEscapedBackticks(s);
      2 * |RemoveChar(s, c)| + |r| == 2 * |RemoveChar(r, c)| + |s|
  {
    if |s| >= 2 && s[0] == '\\' && s[1] == '`' {
      var t := s[2..];
      RemoveEscapedBackticksBalanced(t, c);
      RemoveEscapedBackticksStep(s);
      assert s == "\\`" + t;
      RemoveCharPair(t, c);
    } else if |s| > 0 {
      var t := s[1..];
      RemoveEscapedBackticksBalanced(t, c);
      var rt := RemoveEscapedBackticks(t);
      RemoveEscapedBackticksStep(s);
      assert s == [s[0]] + t;
      RemoveCharCons(s[0], t, c);
      RemoveCharCons(s[0], rt, c);
    }
  }

  /** One step of the left-to-right scan. */
  lemma RemoveEscapedBackticksStep(s: string)
    requires |s| > 0
    ensures |s| >= 2 && s[0] == '\\' && s[1] == '`' ==> RemoveEscapedBackticks(s) == RemoveEscapedBackticks(s[2..])
    ensures !(|s| >= 2 && s[0] == '\\' && s[1] == '`') ==> RemoveEscapedBackticks(s) == [s[0]] + RemoveEscapedBackticks(s[1..])
  {
  }

  /** An escaped back-tick holds exactly one of each of its two characters. */
  lemma RemoveCharPair(t: string, c: char)
    requires c == '\\' || c == '`'
    ensures |RemoveChar("\\`" + t, c)| == |RemoveChar(t, c)| + 1
  {
    RemoveCharAppend("\\`", t, c);
    assert "\\`"[1..] == "`";
    assert "`"[1..] == "";
  }

  lemma RemoveCharCons(x: char, t: string, c: char)
    ensures |RemoveChar([x] + t, c)| == |RemoveChar(t, c)| + (if x == c then 0 else 1)
  {
    assert ([x] + t)[1..] == t;
  }

  lemma Unescaped2(x: string, y: string)
    ensures Unescaped(x + y) == Unescaped(x) + Unescaped(y)
  {
    RemoveCharAppend(x, y, '\\');
    RemoveCharAppend(RemoveChar(x, '\\'), RemoveChar(y, '\\'), '`');
  }

  /**
   * The scan never carries a pair across a point that follows anything but a
   * backslash, so the text can be cleaned piece by piece.
   */
  lemma {:induction false} RemoveEscapedBackticksAppend(x: string, y: string)
    requires x == "" || x[|x| - 1] != '\\'
    ensures RemoveEscapedBackticks(x + y) == RemoveEscapedBackticks(x) + RemoveEscapedBackticks(y)
  {
    var s := x + y;
    if |x| == 0 {
      assert s == y;
    } else if |x| >= 2 && x[0] == '\\' && x[1] == '`' {
      assert s[0] == '\\' && s[1] == '`';
      assert s[2..] == x[2..] + y;
      RemoveEscapedBackticksAppend(x[2..], y);
      assert RemoveEscapedBackticks(s) == RemoveEscapedBackticks(x[2..] + y);
    } else {
      assert s[0] == x[0];
      assert !(|s| >= 2 && s[0] == '\\' && s[1] == '`') by {
        if |x| == 1 { assert x[0] != '\\'; } else { assert s[1] == x[1]; }
      }
      assert s[1..] == x[1..] + y;
      assert x[1..] == "" || x[1..][|x[1..]| - 1] == x[|x| - 1];
      RemoveEscapedBackticksAppend(x[1..], y);
      assert RemoveEscapedBackticks(s) == [s[0]] + RemoveEscapedBackticks(x[1..] + y);
      assert RemoveEscapedBackticks(x) == [x[0]] + RemoveEscapedBackticks(x[1..]);
    }
  }

  /** `toBackTick`: escaped back-ticks removed, then wrapped in single back-ticks. */
  function ToBackTick(s: string): (r: string)
    ensures |r| >= 2 && r[0] == '`' && r[|r| - 1] == '`'
    ensures r[1..|r| - 1] == RemoveEscapedBackticks(s)
    ensures r[1..|r| - 1] == s <==> !HasEscapedBacktick(s)
  {
    var inner := RemoveEscapedBackticks(s);
    var r := "`" + inner + "`";
    assert r[1..|r| - 1] == inner;
    r
  }

  /** `toItalic`: wrapped in underscores, text unchanged. */
  function ToItalic(s: string): (r: string)
    ensures |r| == |s| + 2 && r[0] == '_' && r[|r| - 1] == '_'
    ensures r[1..|r| - 1] == s
  {
    "_" + s + "_"
  }

  // ---------------------------------------------------------------------------
  // toSupperScript

  const Superscripts: seq<char> :=
    ['\U{2070}', '\U{B9}', '\U{B2}', '\U{B3}', '\U{2074}', '\U{2075}', '\U{2076}', '\U{2077}', '\U{2078}', '\U{2079}']

  /** Each character of the decimal text mapped through the table; a non-digit (`'-'`) maps to `undefined`, which `join` renders as `""`. */
  function SuperscriptChars(text: string): (r: string)
    ensures AllDigits(text) ==> |r| == |text|
  {
    if |text| == 0 then ""
    else
      var rest := SuperscriptChars(text[..|text| - 1]);
      var c := text[|text| - 1];
      if IsDigit(c) then rest + [Superscripts[DigitValue(c)]] else rest
  }

  /** For a decimal text, character `i` of the result is the superscript of digit `i`. */
  lemma {:induction false} SuperscriptCharsPointwise(text: string)
    requires AllDigits(text)
    ensures forall i :: 0 <= i < |text| ==> SuperscriptChars(text)[i] == Superscripts[DigitValue(text[i])]
  {
    if |text| > 0 {
      var init := text[..|text| - 1];
      assert AllDigits(init);
      SuperscriptCharsPointwise(init);
      assert forall i :: 0 <= i < |init| ==> init[i] == text[i];
    }
  }

  /** The minus sign has no entry in the table, so it contributes nothing. */
  lemma {:induction false} SuperscriptCharsDropsSign(text: string)
    ensures SuperscriptChars("-" + text) == SuperscriptChars(text)
  {
    var signed := "-" + text;
    if |text| == 0 {
      assert signed[..0] == "";
    } else {
      var init := text[..|text| - 1];
      SuperscriptCharsDropsSign(init);
      assert signed[..|signed| - 1] == "-" + init;
    }
  }

  /** `n.toSupperScript()` for an integer `n`. */
  function ToSuperScript(n: int): string {
    SuperscriptChars(IntToString(n))
  }

  /** The digit a superscript character stands for: its place in the table. */
  function SuperscriptDigit(c: char): Option<nat> {
    if c == Superscripts[0] then Some(0)
    else if c == Superscripts[1] then Some(1)
    else if c == Superscripts[2] then Some(2)
    else if c == Superscripts[3] then Some(3)
    else if c == Superscripts[4] then Some(4)
    else if c == Superscripts[5] then Some(5)
    else if c == Superscripts[6] then Some(6)
    else if c == Superscripts[7] then Some(7)
    else if c == Superscripts[8] then Some(8)
    else if c == Superscripts[9] then Some(9)
    else None
  }

  /** Reads a superscript numeral back as a number (`None` if a character is not a superscript digit). */
  function SuperscriptValue(r: string): Option<nat> {
    if |r| == 0 then Some(0)
    else
      var v := SuperscriptValue(r[..|r| - 1]);
      var d := SuperscriptDigit(r[|r| - 1]);
      if v.Some? && d.Some? then Some(v.value * 10 + d.value) else None
  }

  lemma {:induction false} SuperscriptCharsValue(text: string)
    requires AllDigits(text)
    ensures SuperscriptValue(SuperscriptChars(text)) == Some(DigitsValue(text))
  {
    if |text| > 0 {
      var init := text[..|text| - 1];
      assert AllDigits(init);
      SuperscriptCharsValue(init);
      var r := SuperscriptChars(text);
      var ri := SuperscriptChars(init);
      var d := DigitValue(text[|text| - 1]);
      assert r == ri + [Superscripts[d]];
      SuperscriptDigitOf(d);
      SuperscriptValueSnoc(r, ri, Superscripts[d], DigitsValue(init), d);
      assert DigitsValue(text) == DigitsValue(init) * 10 + d;
    }
  }

  /** Reading one more superscript digit shifts the value by a decimal place. */
  lemma SuperscriptValueSnoc(r: string, init: string, c: char, v: nat, d: nat)
    requires r == init + [c]
    requires SuperscriptValue(init) == Some(v) && SuperscriptDigit(c) == Some(d)
    ensures SuperscriptValue(r) == Some(v * 10 + d)
  {
    assert r[..|init|] == init;
  }

  /** The table read backwards: the `d`-th superscript is digit `d`. */
  lemma SuperscriptDigitOf(d: nat)
    requires d < 10
    ensures SuperscriptDigit(Superscripts[d]) == Some(d)
  {
  }

  /** One superscript character per decimal digit of `|n|`, and reading them back gives `|n|`. */
  lemma SuperScriptRoundTrip(n: int)
    ensures var a := if n < 0 then -n else n;
      && |ToSuperScript(n)| == |NatToString(a)|
      && SuperscriptValue(ToSuperScript(n)) == Some(a)
  {
    var a := if n < 0 then -n else n;
    var digits := NatToString(a);
    if n < 0 {
      SuperscriptCharsDropsSign(digits);
    }
    SuperscriptCharsValue(digits);
    DigitsRoundTrip(a);
  }
}
