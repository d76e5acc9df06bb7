/**
 * The regular-expression toolbox apart from its highlighter: running the
 * pattern over the test cases, the list of test cases and the one shown,
 * and the JavaScript snippet that embeds the shown case's text in a
 * template literal.
 */
module Toolbox {
  import opened Common

  // ---------------------------------------------------------------------
  // Test cases and the pass rule

  datatype TestCase = TestCase(id: int, text: string, expected: bool)

  /** A match the `exec` loop finds: where it starts and `m[0]`. */
  datatype Found = Found(index: nat, whole: string)

  /**
   * The engine as the toolbox uses it: the message thrown by `new
   * RegExp(r, f)` (`None` when it compiles), every match the `exec` loop of
   * a global pattern collects from a text, and the one `exec` of a
   * non-global pattern.
   */
  datatype Matcher = Matcher(
    compileError: (string, string) -> Option<string>,
    execAll: (string, string, string) -> seq<Found>,
    execFirst: (string, string, string) -> Option<Found>)

  datatype CaseResult = CaseResult(id: int, matches: seq<Found>, passed: bool)

  /** What a run does to the `error` shown: leaves it, or sets it (`None` is `null`). */
  datatype ErrorUpdate = KeepError | SetError(error: Option<string>)

  datatype Outcome = Outcome(results: seq<CaseResult>, error: ErrorUpdate)

  /** The matches of one case: all of them for a global pattern, else at most the first. */
  function CaseMatches(mx: Matcher, r: string, f: string, text: string): seq<Found> {
    if 'g' in f then mx.execAll(r, f, text)
    else match mx.execFirst(r, f, text)
      case None => []
      case Some(m) => [m]
  }

  /** The `testResults` memo for pattern `r`, flags `f` and cases `tcs`. */
  function TestResults(mx: Matcher, r: string, f: string, tcs: seq<TestCase>): Outcome {
    if r == "" then Outcome([], KeepError)
    else match mx.compileError(r, f)
      case Some(message) =>
        Outcome(seq(|tcs|, i requires 0 <= i < |tcs| => CaseResult(tcs[i].id, [], false)), SetError(Some(message)))
      case None =>
        Outcome(seq(|tcs|, i requires 0 <= i < |tcs| =>
          var ms := CaseMatches(mx, r, f, tcs[i].text);
          CaseResult(tcs[i].id, ms, (|ms| > 0) == tcs[i].expected)), SetError(None))
  }

  /**
   * Without a pattern there are no results. Otherwise there is one result
   * per case, in order and under its id; a pattern that does not compile
   * fails every case with no match and shows the message; one that
   * compiles clears the message, and a case passes exactly when whether it
   * matched is what it expects.
   */
  lemma PassRule(mx: Matcher, r: string, f: string, tcs: seq<TestCase>)
    ensures var o := TestResults(mx, r, f, tcs);
      (r == "" ==> o.results == [] && o.error == KeepError) &&
      (r != "" ==> |o.results| == |tcs| && forall i :: 0 <= i < |tcs| ==> o.results[i].id == tcs[i].id) &&
      (r != "" && mx.compileError(r, f).Some? ==>
        o.error == SetError(mx.compileError(r, f)) &&
        forall i :: 0 <= i < |o.results| ==> o.results[i].matches == [] && !o.results[i].passed) &&
      (r != "" && mx.compileError(r, f).None? ==>
        o.error == SetError(None) &&
        forall i :: 0 <= i < |tcs| ==>
          (o.results[i].passed <==> (o.results[i].matches != [] <==> tcs[i].expected)) &&
          ('g' !in f ==> |o.results[i].matches| <= 1))
  {
  }

  /** The case list and `activeId` (`None` is `null`). */
  datatype Cases = Cases(testCases: seq<TestCase>, activeId: Option<int>)

  /** The fields `updateTestCase` may be given. */
  datatype CaseEdit = CaseEdit(text: Option<string>, expected: Option<bool>)

  /** `addTestCase()` at clock reading `now`: an empty case expecting a match, made active. */
  function AddTestCase(c: Cases, now: int): Cases {
    Cases(c.testCases + [TestCase(now, "", true)], Some(now))
  }

  function Edited(tc: TestCase, e: CaseEdit): TestCase {
    tc.(text := if e.text.Some? then e.text.value else tc.text,
        expected := if e.expected.Some? then e.expected.value else tc.expected)
  }

  /** `updateTestCase(id, updates)`. */
  function UpdateTestCase(c: Cases, id: int, e: CaseEdit): Cases {
    c.(testCases := seq(|c.testCases|, i requires 0 <= i < |c.testCases| =>
      if c.testCases[i].id == id then Edited(c.testCases[i], e) else c.testCases[i]))
  }

  /** `tcs.filter(tc => tc.id !== id)`. */
  function Without(tcs: seq<TestCase>, id: int): seq<TestCase> {
    if tcs == [] then []
    else (if tcs[0].id != id then [tcs[0]] else []) + Without(tcs[1..], id)
  }

  /** `removeTestCase(id)`. */
  function RemoveTestCase(c: Cases, id: int): Cases {
    Cases(Without(c.testCases, id), if c.activeId == Some(id) then None else c.activeId)
  }

  /** `activeId || first case's id`: an id of 0 is falsy, as `null` is. */
  function CurrentId(c: Cases): Option<int> {
    if c.activeId.Some? && c.activeId.value != 0 then c.activeId
    else if |c.testCases| > 0 then Some(c.testCases[0].id)
    else None
  }

  /** `tcs.find(tc => tc.id === id)`; no case has the id `null`. */
  function Find(tcs: seq<TestCase>, id: Option<int>): Option<TestCase> {
    if tcs == [] || id.None? then None
    else if tcs[0].id == id.value then Some(tcs[0])
    else Find(tcs[1..], id)
  }

  /** The `activeTestCase` memo. */
  function ActiveTestCase(c: Cases): Option<TestCase> {
    Find(c.testCases, CurrentId(c))
  }

  /** `find` gives the first case with the id, and nothing when no case has it. */
  lemma {:induction false} FindFirst(tcs: seq<TestCase>, id: int)
    ensures Find(tcs, Some(id)).None? <==> forall i :: 0 <= i < |tcs| ==> tcs[i].id != id
    ensures Find(tcs, Some(id)).Some? ==>
      exists k :: (0 <= k < |tcs| && Find(tcs, Some(id)) == Some(tcs[k]) &&
        tcs[k].id == id && forall i :: 0 <= i < k ==> tcs[i].id != id)
  {
    if tcs != [] && tcs[0].id != id {
      FindFirst(tcs[1..], id);
      assert forall i :: 0 < i < |tcs| ==> tcs[1..][i - 1] == tcs[i];
      if Find(tcs[1..], Some(id)).Some? {
        var k :| 0 <= k < |tcs[1..]| && Find(tcs[1..], Some(id)) == Some(tcs[1..][k]) &&
          tcs[1..][k].id == id && forall i :: 0 <= i < k ==> tcs[1..][i].id != id;
        assert tcs[k + 1] == tcs[1..][k];
      }
    } else if tcs != [] {
      assert Find(tcs, Some(id)) == Some(tcs[0]);
    }
  }

  /**
   * The case shown is the first case with the current id, and there is none
   * exactly when no case has it; without an active id it is the first case.
   */
  lemma ActiveCase(c: Cases)
    ensures var a := ActiveTestCase(c);
      (a.Some? ==> CurrentId(c).Some? && a.value in c.testCases && a.value.id == CurrentId(c).value) &&
      (a.None? <==> CurrentId(c).None? || forall i :: 0 <= i < |c.testCases| ==> c.testCases[i].id != CurrentId(c).value) &&
      (c.activeId.None? && c.testCases != [] ==> a == Some(c.testCases[0]))
  {
    if CurrentId(c).Some? {
      FindFirst(c.testCases, CurrentId(c).value);
    }
  }

  /**
   * Adding appends one empty case expecting a match and keeps the others.
   * It is the case shown when its id is new and not 0, as a clock reading is.
   */
  lemma AddShowsNewCase(c: Cases, now: int)
    ensures var a := AddTestCase(c, now);
      |a.testCases| == |c.testCases| + 1 && a.testCases[..|c.testCases|] == c.testCases &&
      a.testCases[|c.testCases|] == TestCase(now, "", true) &&
      ((now != 0 && forall i :: 0 <= i < |c.testCases| ==> c.testCases[i].id != now) ==>
        ActiveTestCase(a) == Some(TestCase(now, "", true)))
  {
    var a := AddTestCase(c, now);
    FindFirst(a.testCases, now);
  }

  /** Updating changes only the cases with that id, and keeps their ids and the active id. */
  lemma UpdateOnlyThatCase(c: Cases, id: int, e: CaseEdit)
    ensures var u := UpdateTestCase(c, id, e);
      u.activeId == c.activeId && |u.testCases| == |c.testCases| &&
      forall i :: 0 <= i < |c.testCases| ==>
        u.testCases[i].id == c.testCases[i].id &&
        (c.testCases[i].id != id ==> u.testCases[i] == c.testCases[i]) &&
        (c.testCases[i].id == id ==>
          (u.testCases[i].text == (if e.text.Some? then e.text.value else c.testCases[i].text) &&
           u.testCases[i].expected == (if e.expected.Some? then e.expected.value else c.testCases[i].expected)))
  {
  }

  /** The filter keeps exactly the cases with another id, in their order. */
  lemma {:induction false} WithoutKeeps(tcs: seq<TestCase>, id: int)
    ensures forall tc :: tc in Without(tcs, id) <==> tc in tcs && tc.id != id
    ensures |Without(tcs, id)| <= |tcs|
    ensures (forall i :: 0 <= i < |tcs| ==> tcs[i].id != id) ==> Without(tcs, id) == tcs
    ensures Without(Without(tcs, id), id) == Without(tcs, id)
  {
    if tcs != [] {
      WithoutKeeps(tcs[1..], id);
      assert tcs == [tcs[0]] + tcs[1..];
      var rest := Without(tcs[1..], id);
      if tcs[0].id != id {
        assert ([tcs[0]] + rest)[0] == tcs[0];
        assert ([tcs[0]] + rest)[1..] == rest;
      } else {
        assert [] + rest == rest;
      }
    }
  }

  /**
   * Removing drops every case with that id and keeps the rest in order,
   * clears the active id exactly when it was that id, and never leaves a
   * case with that id shown.
   */
  lemma RemoveDropsCase(c: Cases, id: int)
    ensures var r := RemoveTestCase(c, id);
      r.testCases == Without(c.testCases, id) &&
      (forall tc :: tc in r.testCases <==> tc in c.testCases && tc.id != id) &&
      (r.activeId == if c.activeId == Some(id) then None else c.activeId) &&
      (ActiveTestCase(r).Some? ==> ActiveTestCase(r).value.id != id)
  {
    WithoutKeeps(c.testCases, id);
    ActiveCase(RemoveTestCase(c, id));
  }

  // ---------------------------------------------------------------------
  // The snippet

  /** The code after the string literal in the snippet. */
  const SnippetTail := ";\nlet m;\n\nwhile ((m = regex.exec(str)) !== null) {\n    if (m.index === regex.lastIndex) regex.lastIndex++;\n    m.forEach((match, groupIndex) => {\n        console.log(`Found match, group ${groupIndex}: ${match}`);\n    });\n}"

  /**
   * The escaping as written: `replace(/`/g, '\\`')` then `replace(/\${/g,
   * '\\${')`. Putting a backslash before a backtick creates no `${`, and two
   * `${` never overlap, so the two global replaces are one left-to-right pass.
   */
  function EscapeAsWritten(t: string): string {
    if t == "" then ""
    else if t[0] == '`' then "\\`" + EscapeAsWritten(t[1..])
    else if t[0] == '$' && |t| > 1 && t[1] == '{' then "\\${" + EscapeAsWritten(t[2..])
    else [t[0]] + EscapeAsWritten(t[1..])
  }

  /**
   * The escaping that makes the literal read back as the text: a backslash
   * is doubled as well, and a carriage return, which a template literal
   * would read as a line feed, is written as the escape `\r`.
   */
  function EscapeSnippet(t: string): string {
    if t == "" then ""
    else if t[0] == '\\' then "\\\\" + EscapeSnippet(t[1..])
    else if t[0] == '`' then "\\`" + EscapeSnippet(t[1..])
    else if t[0] == '$' && |t| > 1 && t[1] == '{' then "\\${" + EscapeSnippet(t[2..])
    else if t[0] == '\r' then "\\r" + EscapeSnippet(t[1..])
    else [t[0]] + EscapeSnippet(t[1..])
  }

  /** The opening of the snippet, up to and including the backtick that starts `str`. */
  function SnippetHead(r: string, f: string): string {
    "const regex = /" + r + "/" + f + ";\nconst str = `"
  }

  /**
   * The `snippet` memo as written: nothing without a pattern, else the code
   * with the shown case's text, escaped by `EscapeAsWritten`, in the literal `str`.
   */
  function Snippet(r: string, f: string, t: string): string {
    if r == "" then ""
    else SnippetHead(r, f) + EscapeAsWritten(t) + "`" + SnippetTail
  }

  /** The snippet with the corrected escaping `EscapeSnippet`. */
  function FixedSnippet(r: string, f: string, t: string): string {
    if r == "" then ""
    else SnippetHead(r, f) + EscapeSnippet(t) + "`" + SnippetTail
  }

  function Prepend(c: char, o: Option<(string, string)>): Option<(string, string)> {
    match o
    case None => None
    case Some((v, rest)) => Some(([c] + v, rest))
  }

  /**
   * How JavaScript reads the body of a template literal: the text up to the
   * closing backtick, and what follows it. `None` when the literal never
   * closes, holds a `${` substitution, or uses an escape other than
   * `\\`, `` \` ``, `\$`, `\{`, `\n` and `\r`. A bare carriage return, alone
   * or before a line feed, reads as a line feed.
   */
  function ReadLiteral(s: string): Option<(string, string)>
    decreases |s|
  {
    if s == "" then None
    else if s[0] == '`' then Some(("", s[1..]))
    else if s[0] == '\\' then
      if |s| < 2 then None
      else if s[1] in "\\`${" then Prepend(s[1], ReadLiteral(s[2..]))
      else if s[1] == 'n' then Prepend('\n', ReadLiteral(s[2..]))
      else if s[1] == 'r' then Prepend('\r', ReadLiteral(s[2..]))
      else None
    else if s[0] == '$' && |s| > 1 && s[1] == '{' then None
    else if s[0] == '\r' then
      if |s| > 1 && s[1] == '\n' then Prepend('\n', ReadLiteral(s[2..])) else Prepend('\n', ReadLiteral(s[1..]))
    else Prepend(s[0], ReadLiteral(s[1..]))
  }

  /** What follows an escaped text starts with `{` only when the text does. */
  lemma EscapedStart(t: string, rest: string)
    ensures var s := EscapeSnippet(t) + rest;
      t != "" ==> (|s| > 0 && (s[0] == '{' <==> t[0] == '{'))
  {
  }

  /** An escape `\\d` of `\\`, `` ` ``, `$` or `{` reads as `d`. */
  lemma ReadEscaped(d: char, x: string)
    requires d in "\\`${"
    ensures ReadLiteral(['\\', d] + x) == Prepend(d, ReadLiteral(x))
  {
    assert (['\\', d] + x)[2..] == x;
  }

  /** The escape `\\r` reads as a carriage return. */
  lemma ReadReturn(x: string)
    ensures ReadLiteral("\\r" + x) == Prepend('\r', ReadLiteral(x))
  {
    assert ("\\r" + x)[2..] == x;
  }

  /** A character that starts no escape, no closing backtick and no substitution reads as itself. */
  lemma ReadPlain(c: char, x: string)
    requires c != '`' && c != '\\' && c != '\r' && (c == '$' ==> x == [] || x[0] != '{')
    ensures ReadLiteral([c] + x) == Prepend(c, ReadLiteral(x))
  {
    assert ([c] + x)[1..] == x;
  }

  lemma HeadTail(t: string)
    requires t != ""
    ensures [t[0]] + t[1..] == t
  {
  }

  lemma Associative(a: string, b: string, c: string)
    ensures a + b + c == a + (b + c)
  {
  }

  /** The literal of the snippet reads back as the text, whatever follows it. */
  lemma {:induction false} EscapeSnippetReadsBack(t: string, rest: string)
    ensures ReadLiteral(EscapeSnippet(t) + "`" + rest) == Some((t, rest))
    decreases |t|
  {
    if t == "" {
      assert EscapeSnippet(t) + "`" + rest == "`" + rest;
    } else if t[0] == '\\' || t[0] == '`' || t[0] == '\r' {
      EscapeSnippetReadsBack(t[1..], rest);
      EscapedHeadReadsBack(t, rest);
    } else if t[0] == '$' && |t| > 1 && t[1] == '{' {
      EscapeSnippetReadsBack(t[2..], rest);
      SubstitutionReadsBack(t, rest);
    } else {
      EscapeSnippetReadsBack(t[1..], rest);
      PlainHeadReadsBack(t, rest);
    }
  }

  /** The step of `EscapeSnippetReadsBack` for a text starting with a backslash, a backtick or a carriage return. */
  lemma EscapedHeadReadsBack(t: string, rest: string)
    requires t != "" && (t[0] == '\\' || t[0] == '`' || t[0] == '\r')
    requires ReadLiteral(EscapeSnippet(t[1..]) + "`" + rest) == Some((t[1..], rest))
    ensures ReadLiteral(EscapeSnippet(t) + "`" + rest) == Some((t, rest))
  {
    var e := if t[0] == '\r' then ['\\', 'r'] else ['\\', t[0]];
    EscapedHead(t);
    Regroup(e, EscapeSnippet(t[1..]), "`", rest);
    if t[0] == '\r' {
      ReadReturn(EscapeSnippet(t[1..]) + "`" + rest);
    } else {
      ReadEscaped(t[0], EscapeSnippet(t[1..]) + "`" + rest);
    }
    HeadTail(t);
  }

  /** How `EscapeSnippet` writes a leading backslash, backtick or carriage return. */
  lemma EscapedHead(t: string)
    requires t != "" && (t[0] == '\\' || t[0] == '`' || t[0] == '\r')
    ensures EscapeSnippet(t) == (if t[0] == '\r' then ['\\', 'r'] else ['\\', t[0]]) + EscapeSnippet(t[1..])
  {
  }

  /** The step of `EscapeSnippetReadsBack` for a text starting with `${`. */
  lemma SubstitutionReadsBack(t: string, rest: string)
    requires |t| > 1 && t[0] == '$' && t[1] == '{'
    requires ReadLiteral(EscapeSnippet(t[2..]) + "`" + rest) == Some((t[2..], rest))
    ensures ReadLiteral(EscapeSnippet(t) + "`" + rest) == Some((t, rest))
  {
    var x := EscapeSnippet(t[2..]) + "`" + rest;
    assert EscapeSnippet(t) == ['\\', '$'] + (['{'] + EscapeSnippet(t[2..]));
    Regroup(['\\', '$'], ['{'] + EscapeSnippet(t[2..]), "`", rest);
    Regroup(['{'], EscapeSnippet(t[2..]), "`", rest);
    ReadEscaped('$', ['{'] + x);
    ReadPlain('{', x);
    HeadTail(t);
    HeadTail(t[1..]);
    assert t[1..][1..] == t[2..];
  }

  /** The step of `EscapeSnippetReadsBack` for a text starting with a character copied as it is. */
  lemma PlainHeadReadsBack(t: string, rest: string)
    requires t != "" && t[0] != '\\' && t[0] != '`' && t[0] != '\r' && !(t[0] == '$' && |t| > 1 && t[1] == '{')
    requires ReadLiteral(EscapeSnippet(t[1..]) + "`" + rest) == Some((t[1..], rest))
    ensures ReadLiteral(EscapeSnippet(t) + "`" + rest) == Some((t, rest))
  {
    var x := EscapeSnippet(t[1..]) + "`" + rest;
    assert EscapeSnippet(t) == [t[0]] + EscapeSnippet(t[1..]);
    Regroup([t[0]], EscapeSnippet(t[1..]), "`", rest);
    if t[0] == '$' {
      EscapedStart(t[1..], "`" + rest);
      Associative(EscapeSnippet(t[1..]), "`", rest);
    }
    ReadPlain(t[0], x);
    HeadTail(t);
  }

  lemma Regroup(a: string, b: string, c: string, d: string)
    ensures a + b + c + d == a + (b + c + d)
  {
  }

  /** With the corrected escaping, the snippet's `str` holds exactly the shown case's text. */
  lemma FixedSnippetHoldsText(r: string, f: string, t: string)
    requires r != ""
    ensures var prefix := SnippetHead(r, f);
      |FixedSnippet(r, f, t)| >= |prefix| && FixedSnippet(r, f, t)[..|prefix|] == prefix &&
      ReadLiteral(FixedSnippet(r, f, t)[|prefix|..]) == Some((t, SnippetTail))
  {
    var prefix := SnippetHead(r, f);
    EscapeSnippetReadsBack(t, SnippetTail);
    Regroup(prefix, EscapeSnippet(t), "`", SnippetTail);
    PrefixSplit(prefix, EscapeSnippet(t) + "`" + SnippetTail);
  }

  /** The snippet as written holds the text whenever it has no backslash and no carriage return. */
  lemma AsWrittenSnippetHoldsText(r: string, f: string, t: string)
    requires r != ""
    requires forall i :: 0 <= i < |t| ==> t[i] != '\\' && t[i] != '\r'
    ensures var prefix := SnippetHead(r, f);
      |Snippet(r, f, t)| >= |prefix| && Snippet(r, f, t)[..|prefix|] == prefix &&
      ReadLiteral(Snippet(r, f, t)[|prefix|..]) == Some((t, SnippetTail))
  {
    AsWrittenAgrees(t);
    FixedSnippetHoldsText(r, f, t);
  }

  lemma PrefixSplit(prefix: string, body: string)
    ensures |prefix + body| >= |prefix| && (prefix + body)[..|prefix|] == prefix && (prefix + body)[|prefix|..] == body
  {
  }

  /**
   * The snippet as written loses a lone backslash: for the text `\` the
   * literal reads an escaped backtick, so `str` does not hold the text and
   * does not close before the code that follows.
   */
  lemma AsWrittenLosesBackslash(r: string, f: string)
    requires r != ""
    ensures var prefix := SnippetHead(r, f);
      |Snippet(r, f, "\\")| >= |prefix| && Snippet(r, f, "\\")[..|prefix|] == prefix &&
      ReadLiteral(Snippet(r, f, "\\")[|prefix|..]) != Some(("\\", SnippetTail))
  {
    var prefix := SnippetHead(r, f);
    var body := "\\`" + SnippetTail;
    assert EscapeAsWritten("\\") == "\\";
    Regroup(prefix, "\\", "`", SnippetTail);
    PrefixSplit(prefix, body);
    assert body[0] == '\\' && body[1] == '`' && body[2..] == SnippetTail;
    assert ReadLiteral(body) == Prepend('`', ReadLiteral(SnippetTail));
  }

  /** The escaping as written agrees with the corrected one on text without backslashes or carriage returns. */
  lemma {:induction false} AsWrittenAgrees(t: string)
    requires forall i :: 0 <= i < |t| ==> t[i] != '\\' && t[i] != '\r'
    ensures EscapeAsWritten(t) == EscapeSnippet(t)
    decreases |t|
  {
    if t != "" {
      assert forall i :: 0 <= i < |t[1..]| ==> t[1..][i] == t[i + 1];
      if |t| > 1 {
        assert forall i :: 0 <= i < |t[2..]| ==> t[2..][i] == t[i + 2];
        AsWrittenAgrees(t[2..]);
      }
      AsWrittenAgrees(t[1..]);
    }
  }

  /** On text without backslashes or carriage returns the escaping as written reads back as the text. */
  lemma AsWrittenReadsBack(t: string, rest: string)
    requires forall i :: 0 <= i < |t| ==> t[i] != '\\' && t[i] != '\r'
    ensures ReadLiteral(EscapeAsWritten(t) + "`" + rest) == Some((t, rest))
  {
    AsWrittenAgrees(t);
    EscapeSnippetReadsBack(t, rest);
  }
}
