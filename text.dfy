/**
 * The JavaScript string operations the extractors rely on, with the
 * language's own edge cases: `trim` and `\s` use the ECMAScript white space
 * and line terminator set, `split` with a string separator, lenient
 * `parseInt(s, 10)`, and decimal rendering of counters.
 */
module Text {
  import opened Common

  /** ECMAScript WhiteSpace or LineTerminator: what `trim` removes and `\s` matches. */
  predicate IsSpace(c: char) {
    var n := c as int;
    (9 <= n <= 13) || n == 32 || n == 0xA0 || n == 0x1680 || (0x2000 <= n <= 0x200A)
    || n == 0x2028 || n == 0x2029 || n == 0x202F || n == 0x205F || n == 0x3000 || n == 0xFEFF
  }

  /** `trimStart`: the suffix left after the leading white space. */
  function TrimStart(s: string): (r: string)
    ensures |r| <= |s| && r == s[|s| - |r|..]
    ensures forall k :: 0 <= k < |s| - |r| ==> IsSpace(s[k])
    ensures r == [] || !IsSpace(r[0])
  {
    if s != [] && IsSpace(s[0]) then TrimStart(s[1..]) else s
  }

  /** `trimEnd`: the prefix left before the trailing white space. */
  function TrimEnd(s: string): (r: string)
    ensures |r| <= |s| && r == s[..|r|]
    ensures forall k :: |r| <= k < |s| ==> IsSpace(s[k])
    ensures r == [] || !IsSpace(r[|r| - 1])
  {
    if s != [] && IsSpace(s[|s| - 1]) then TrimEnd(s[..|s| - 1]) else s
  }

  /** `trim`. */
  function Trim(s: string): (r: string)
    ensures |r| <= |s|
    ensures r == [] || (!IsSpace(r[0]) && !IsSpace(r[|r| - 1]))
  {
    var t := TrimStart(s);
    var r := TrimEnd(t);
    assert r != [] ==> r[0] == t[0];
    r
  }

  /** Each string trimmed. */
  function TrimEach(parts: seq<string>): (r: seq<string>)
    ensures |r| == |parts| && forall i :: 0 <= i < |parts| ==> r[i] == Trim(parts[i])
  {
    seq(|parts|, i requires 0 <= i < |parts| => Trim(parts[i]))
  }

  /** The non-empty strings of `parts`, in order. */
  function NonEmpty(parts: seq<string>): (r: seq<string>)
    ensures |r| <= |parts|
    ensures forall x :: x in r ==> x in parts && x != ""
  {
    if parts == [] then []
    else if parts[0] == "" then NonEmpty(parts[1..])
    else [parts[0]] + NonEmpty(parts[1..])
  }

  /** A one-character needle that does not occur is a character that does not occur. */
  lemma NotContainsChar(s: string, c: char)
    requires !Contains(s, [c])
    ensures c !in s
  {
    if c in s {
      var i :| 0 <= i < |s| && s[i] == c;
      assert OccursAt(s, [c], i);
    }
  }

  /** A character that does not occur is a one-character needle that does not occur. */
  lemma AbsentChar(s: string, c: char)
    requires c !in s
    ensures !Contains(s, [c])
  {
    forall i: nat | i <= |s| ensures !OccursAt(s, [c], i) {
      if i + 1 <= |s| {
        assert s[i..i + 1][0] == s[i];
      }
    }
  }

  /** Joining parts free of a character with a separator free of it gives a string free of it. */
  lemma {:induction false} JoinAvoids(parts: seq<string>, sep: string, c: char)
    requires c !in sep && forall k :: 0 <= k < |parts| ==> c !in parts[k]
    ensures c !in Join(parts, sep)
  {
    if |parts| > 1 {
      JoinAvoids(parts[1..], sep, c);
    }
  }

  /** A string without leading or trailing white space is its own trim. */
  lemma TrimOfTrimmed(s: string)
    requires s == [] || (!IsSpace(s[0]) && !IsSpace(s[|s| - 1]))
    ensures Trim(s) == s
  {
  }

  /** `s.replace(/c/g, "")`: every occurrence of `c` removed, order kept. */
  function RemoveChar(s: string, c: char): (r: string)
    ensures c !in r
    ensures |r| <= |s|
    ensures c !in s ==> r == s
  {
    if s == [] then []
    else
      (if s[0] == c then [] else [s[0]]) + RemoveChar(s[1..], c)
  }

  /** Removing `c` drops exactly its occurrences: every other character keeps its count. */
  lemma {:induction false} RemoveCharCounts(s: string, c: char)
    ensures multiset(RemoveChar(s, c)) == multiset(s)[c := 0]
  {
    if s != [] {
      assert s == [s[0]] + s[1..];
      RemoveCharCounts(s[1..], c);
    }
  }

  /** `s.replace(/a/g, b)` for single characters. */
  function ReplaceChar(s: string, a: char, b: char): string {
    seq(|s|, i requires 0 <= i < |s| => if s[i] == a then b else s[i])
  }

  /** ASCII case mapping of `toLowerCase`. */
  function LowerChar(c: char): char {
    if 'A' <= c <= 'Z' then (c as int + 32) as char else c
  }

  /** ASCII case mapping of `toUpperCase`. */
  function UpperChar(c: char): char {
    if 'a' <= c <= 'z' then (c as int - 32) as char else c
  }

  function Lower(s: string): string {
    seq(|s|, i requires 0 <= i < |s| => LowerChar(s[i]))
  }

  /** `sub` occurs in `s` starting at index `i`. */
  predicate OccursAt(s: string, sub: string, i: nat) {
    i + |sub| <= |s| && s[i..i + |sub|] == sub
  }

  /** `s.includes(sub)`. */
  predicate Contains(s: string, sub: string) {
    exists i: nat | i <= |s| :: OccursAt(s, sub, i)
  }

  lemma OccursAtTail(s: string, sub: string, i: nat)
    requires s != []
    ensures OccursAt(s[1..], sub, i) <==> OccursAt(s, sub, i + 1)
  {
    if i + |sub| <= |s| - 1 {
      assert s[1..][i..i + |sub|] == s[i + 1..i + 1 + |sub|];
    }
  }

  /** `s.indexOf(sep)` when found: the first place `sep` occurs. */
  function IndexOf(s: string, sep: string): (r: Option<nat>)
    ensures r.Some? <==> Contains(s, sep)
    ensures r.Some? ==> OccursAt(s, sep, r.value)
    ensures r.Some? ==> forall j: nat :: j < r.value ==> !OccursAt(s, sep, j)
    decreases |s|
  {
    if |s| < |sep| then None
    else if s[..|sep|] == sep then assert OccursAt(s, sep, 0); Some(0)
    else
      var rest := IndexOf(s[1..], sep);
      assert !OccursAt(s, sep, 0);
      assert forall j: nat :: OccursAt(s[1..], sep, j) <==> OccursAt(s, sep, j + 1) by {
        forall j: nat ensures OccursAt(s[1..], sep, j) <==> OccursAt(s, sep, j + 1) {
          OccursAtTail(s, sep, j);
        }
      }
      assert Contains(s, sep) ==> Contains(s[1..], sep) by {
        if Contains(s, sep) {
          var i: nat :| i <= |s| && OccursAt(s, sep, i);
          assert i != 0;
          assert OccursAt(s[1..], sep, i - 1);
        }
      }
      match rest
      case None => None
      case Some(i) =>
        assert forall j: nat :: 0 < j <= i ==> (OccursAt(s, sep, j) <==> OccursAt(s[1..], sep, j - 1));
        Some(i + 1)
  }

  /** `s.split(sep)` for a non-empty string separator. */
  function Split(s: string, sep: string): (parts: seq<string>)
    requires |sep| > 0
    ensures |parts| >= 1
    ensures forall k :: 0 <= k < |parts| ==> !Contains(parts[k], sep)
    decreases |s|
  {
    match IndexOf(s, sep)
    case None => [s]
    case Some(i) =>
      NoEarlierOccurrence(s, sep, i);
      [s[..i]] + Split(s[i + |sep|..], sep)
  }

  /** A string holding the separator splits into at least two parts. */
  lemma SplitAtOccurrence(s: string, sep: string)
    requires |sep| > 0 && Contains(s, sep)
    ensures |Split(s, sep)| >= 2
  {
  }

  lemma NoEarlierOccurrence(s: string, sep: string, i: nat)
    requires i <= |s| && |sep| > 0
    requires forall j: nat :: j < i ==> !OccursAt(s, sep, j)
    ensures !Contains(s[..i], sep)
  {
    if Contains(s[..i], sep) {
      var j: nat :| j <= |s[..i]| && OccursAt(s[..i], sep, j);
      assert j + |sep| <= |s[..i]|;
      assert s[..i][j..j + |sep|] == s[j..j + |sep|];
      assert OccursAt(s, sep, j);
    }
  }

  /** `parts.join(sep)`. */
  function Join(parts: seq<string>, sep: string): string {
    if parts == [] then ""
    else if |parts| == 1 then parts[0]
    else parts[0] + sep + Join(parts[1..], sep)
  }

  /** Splitting and joining again with the same separator gives the input back. */
  lemma {:induction false} JoinSplit(s: string, sep: string)
    requires |sep| > 0
    ensures Join(Split(s, sep), sep) == s
    decreases |s|
  {
    match IndexOf(s, sep)
    case None =>
    case Some(i) =>
      var rest := s[i + |sep|..];
      assert Split(s, sep) == [s[..i]] + Split(rest, sep);
      JoinSplit(rest, sep);
      JoinCons(s[..i], Split(rest, sep), sep);
      assert s[i..i + |sep|] == sep;
      assert s == s[..i] + sep + rest;
  }

  lemma JoinCons(a: string, ps: seq<string>, sep: string)
    requires |ps| >= 1
    ensures Join([a] + ps, sep) == a + sep + Join(ps, sep)
  {
    assert ([a] + ps)[1..] == ps;
  }

  /** No proper prefix of `sep` is also a suffix of it, so occurrences never overlap. */
  predicate Borderless(sep: string) {
    forall d :: 0 < d < |sep| ==> sep[d..] != sep[..|sep| - d]
  }

  /** Before a separator that does not occur in `p`, the first occurrence is at `|p|`. */
  lemma IndexOfAfterPart(p: string, sep: string, rest: string)
    requires |sep| > 0 && Borderless(sep) && !Contains(p, sep)
    ensures IndexOf(p + sep + rest, sep) == Some(|p|)
  {
    var t := p + sep + rest;
    assert t[|p|..|p| + |sep|] == sep;
    assert OccursAt(t, sep, |p|);
    forall j: nat | j < |p| ensures !OccursAt(t, sep, j) {
      if j + |sep| <= |p| {
        assert t[j..j + |sep|] == p[j..j + |sep|];
        if OccursAt(t, sep, j) {
          assert OccursAt(p, sep, j);
        }
      } else if OccursAt(t, sep, j) {
        OverlapIsBorder(p, sep, rest, j);
        assert false;
      }
    }
  }

  /** An occurrence straddling the end of `p` makes a border of `sep`. */
  lemma OverlapIsBorder(p: string, sep: string, rest: string, j: nat)
    requires j < |p| < j + |sep| && OccursAt(p + sep + rest, sep, j)
    ensures sep[|p| - j..] == sep[..|sep| - (|p| - j)]
  {
    var t := p + sep + rest;
    var d := |p| - j;
    forall k | 0 <= k < |sep| - d ensures sep[d..][k] == sep[..|sep| - d][k] {
      assert t[j + d + k] == sep[k];
      assert t[j..j + |sep|][d + k] == t[j + d + k];
    }
  }

  /** Joining parts free of a borderless separator, then splitting, gives the parts back. */
  lemma {:induction false} SplitJoin(parts: seq<string>, sep: string)
    requires |sep| > 0 && Borderless(sep) && |parts| >= 1
    requires forall k :: 0 <= k < |parts| ==> !Contains(parts[k], sep)
    ensures Split(Join(parts, sep), sep) == parts
    decreases |parts|
  {
    if |parts| == 1 {
      assert IndexOf(parts[0], sep) == None;
    } else {
      var rest := Join(parts[1..], sep);
      IndexOfAfterPart(parts[0], sep, rest);
      assert (parts[0] + sep + rest)[..|parts[0]|] == parts[0];
      assert (parts[0] + sep + rest)[|parts[0]| + |sep|..] == rest;
      SplitJoin(parts[1..], sep);
    }
  }

  /** A character absent from a string is absent from anything occurring in it. */
  lemma AbsentInPart(a: string, b: string, c: char)
    requires Contains(a, b) && c !in a
    ensures c !in b
  {
    var d: nat :| d <= |a| && OccursAt(a, b, d);
    assert b == a[d..d + |b|];
    forall e | 0 <= e < |b| ensures b[e] != c {
      assert b[e] == a[d + e];
    }
  }

  /** Occurrence is transitive. */
  lemma ContainsTrans(a: string, b: string, c: string)
    requires Contains(a, b) && Contains(b, c)
    ensures Contains(a, c)
  {
    var d: nat :| d <= |a| && OccursAt(a, b, d);
    var e: nat :| e <= |b| && OccursAt(b, c, e);
    assert b == a[d..d + |b|];
    assert c == b[e..e + |c|];
    forall x | 0 <= x < |c| ensures a[d + e..d + e + |c|][x] == c[x] {
      assert c[x] == b[e + x] == a[d + e + x];
    }
    assert a[d + e..d + e + |c|] == c;
    assert OccursAt(a, c, d + e);
  }

  /** An occurrence in a suffix is an occurrence in the whole string. */
  lemma OccursInSuffix(s: string, k: nat, sub: string, d: nat)
    requires k <= |s| && OccursAt(s[k..], sub, d)
    ensures OccursAt(s, sub, k + d)
  {
    assert s[k + d..k + d + |sub|] == s[k..][d..d + |sub|];
  }

  /** Every part of a split occurs in the split string. */
  lemma {:induction false} PartOccurs(s: string, sep: string, j: nat)
    requires |sep| > 0 && j < |Split(s, sep)|
    ensures Contains(s, Split(s, sep)[j])
    decreases |s|
  {
    var parts := Split(s, sep);
    match IndexOf(s, sep)
    case None =>
      assert parts == [s];
      assert OccursAt(s, s, 0);
    case Some(i) =>
      var k := i + |sep|;
      var rest := s[k..];
      assert parts == [s[..i]] + Split(rest, sep);
      if j == 0 {
        assert OccursAt(s, s[..i], 0);
      } else {
        assert parts[j] == Split(rest, sep)[j - 1];
        PartOccurs(rest, sep, j - 1);
        var d: nat :| d <= |rest| && OccursAt(rest, parts[j], d);
        OccursInSuffix(s, k, parts[j], d);
      }
  }

  /** A trimmed string occurs in the string it was trimmed from. */
  lemma TrimOccurs(s: string)
    ensures Contains(s, Trim(s))
  {
    var t := TrimStart(s);
    var r := TrimEnd(t);
    var d := |s| - |t|;
    assert OccursAt(t, r, 0);
    OccursInSuffix(s, d, r, 0);
    assert OccursAt(s, Trim(s), d);
  }

  /** Every single character is a borderless separator. */
  lemma CharBorderless(c: char)
    ensures Borderless([c])
  {
  }

  /** `s.replace(/\s+/g, " ")`: every run of white space becomes one space. */
  function CollapseWhitespace(s: string): (r: string)
    ensures r == [] <==> s == []
    ensures s != [] && !IsSpace(s[0]) ==> r[0] == s[0]
    decreases |s|
  {
    if s == [] then []
    else if IsSpace(s[0]) then " " + CollapseWhitespace(TrimStart(s))
    else [s[0]] + CollapseWhitespace(s[1..])
  }

  /** Collapsing white space twice is the same as collapsing it once. */
  lemma {:induction false} CollapseWhitespaceIdempotent(s: string)
    ensures CollapseWhitespace(CollapseWhitespace(s)) == CollapseWhitespace(s)
    decreases |s|
  {
    if s == [] {
    } else if IsSpace(s[0]) {
      var t := TrimStart(s);
      var c := CollapseWhitespace(t);
      CollapseWhitespaceIdempotent(t);
      assert TrimStart(" " + c) == TrimStart(c);
      assert TrimStart(c) == c;
    } else {
      var t := s[1..];
      var c := CollapseWhitespace(t);
      CollapseWhitespaceIdempotent(t);
      assert ([s[0]] + c)[1..] == c;
    }
  }

  /** `s.replace(/   /g, " ")`: non-overlapping runs of three spaces, left to right. */
  function CollapseTripleSpaces(s: string): (r: string)
    ensures |r| <= |s|
    ensures !Contains(s, "   ") ==> r == s
    decreases |s|
  {
    if |s| >= 3 && s[..3] == "   " then
      assert OccursAt(s, "   ", 0);
      " " + CollapseTripleSpaces(s[3..])
    else if s == [] then []
    else
      assert !Contains(s, "   ") ==> !Contains(s[1..], "   ") by {
        if Contains(s[1..], "   ") {
          var i: nat :| i <= |s[1..]| && OccursAt(s[1..], "   ", i);
          OccursAtTail(s, "   ", i);
        }
      }
      [s[0]] + CollapseTripleSpaces(s[1..])
  }

  predicate IsDigit(c: char) { '0' <= c <= '9' }

  function DigitChar(d: nat): (c: char)
    requires d < 10
    ensures IsDigit(c)
  {
    ('0' as int + d) as char
  }

  function DigitValue(c: char): (d: nat)
    requires IsDigit(c)
    ensures d < 10 && DigitChar(d) == c
  {
    c as int - '0' as int
  }

  /** Decimal rendering of a counter, as in template literals. */
  function NatToString(n: nat): (r: string)
    ensures |r| >= 1 && forall i :: 0 <= i < |r| ==> IsDigit(r[i])
  {
    if n < 10 then [DigitChar(n)] else NatToString(n / 10) + [DigitChar(n % 10)]
  }

  /** The value of a non-empty run of decimal digits. */
  function DigitsValue(s: string): nat
    requires forall i :: 0 <= i < |s| ==> IsDigit(s[i])
  {
    if s == [] then 0 else DigitsValue(s[..|s| - 1]) * 10 + DigitValue(s[|s| - 1])
  }

  /** The longest prefix of decimal digits. */
  function LeadingDigits(s: string): (r: string)
    ensures |r| <= |s| && r == s[..|r|]
    ensures forall i :: 0 <= i < |r| ==> IsDigit(r[i])
    ensures |r| < |s| ==> !IsDigit(s[|r|])
  {
    if s != [] && IsDigit(s[0]) then [s[0]] + LeadingDigits(s[1..]) else []
  }

  /**
   * `parseInt(s, 10)`: leading white space, an optional sign, then the
   * longest run of decimal digits; `None` is `NaN`.
   */
  function ParseInt(s: string): Option<int> {
    var t := TrimStart(s);
    var negative := t != [] && t[0] == '-';
    var body := if t != [] && (t[0] == '-' || t[0] == '+') then t[1..] else t;
    var digits := LeadingDigits(body);
    if digits == [] then None
    else if negative then Some(-(DigitsValue(digits) as int))
    else Some(DigitsValue(digits))
  }

  /** Rendering a number and reading its digits back gives the number. */
  lemma {:induction false} NatToStringValue(n: nat)
    ensures DigitsValue(NatToString(n)) == n
  {
    if n >= 10 {
      var r := NatToString(n);
      NatToStringValue(n / 10);
      assert r[..|r| - 1] == NatToString(n / 10);
    }
  }

  /** `parseInt` reads back what `NatToString` renders. */
  lemma ParseIntOfNatToString(n: nat)
    ensures ParseInt(NatToString(n)) == Some(n)
  {
    var r := NatToString(n);
    assert IsDigit(r[0]);
    assert !IsSpace(r[0]) && r[0] != '-' && r[0] != '+';
    assert TrimStart(r) == r;
    LeadingDigitsAll(r);
    NatToStringValue(n);
  }

  lemma {:induction false} LeadingDigitsAll(s: string)
    requires forall i :: 0 <= i < |s| ==> IsDigit(s[i])
    ensures LeadingDigits(s) == s
  {
    if s != [] {
      LeadingDigitsAll(s[1..]);
    }
  }

  /** Different numbers render differently. */
  lemma NatToStringInjective(a: nat, b: nat)
    requires NatToString(a) == NatToString(b)
    ensures a == b
  {
    NatToStringValue(a);
    NatToStringValue(b);
  }

  /** A shared prefix can be cancelled. */
  lemma PrefixCancel(p: string, x: string, y: string)
    requires p + x == p + y
    ensures x == y
  {
    assert x == (p + x)[|p|..];
    assert y == (p + y)[|p|..];
  }
}
