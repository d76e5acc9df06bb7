/**
 * `parsePageRange` of the OCR tool: a comma-separated list of page numbers
 * and inclusive ranges `a-b`, each read with `parseInt`'s leniency, becomes
 * the ascending list of the distinct pages it names, or nothing when some
 * part is not a page, or not a range of pages, within `1..maxPage`.
 */
module PageRange {
  import opened Common
  import opened Text
  import opened Sorting

  /** `rangeStr.split(",").map((s) => s.trim()).filter((s) => s.length > 0)`. */
  function Parts(rangeStr: string): seq<string> {
    NonEmpty(TrimEach(Split(rangeStr, ",")))
  }

  /**
   * The inclusive bounds one part stands for, or `None` when the part is
   * rejected. A part holding `-` is a range read from the first two
   * `-`-separated pieces; any other part is a single page.
   */
  function PartBounds(part: string, maxPage: int): (r: Option<(int, int)>)
    ensures r.Some? ==> 1 <= r.value.0 <= r.value.1 <= maxPage
  {
    if Contains(part, "-") then
      SplitAtOccurrence(part, "-");
      var pieces := TrimEach(Split(part, "-"));
      var start := ParseInt(pieces[0]);
      var end := ParseInt(pieces[1]);
      if start.None? || end.None? || start.value < 1 || end.value > maxPage || start.value > end.value then None
      else Some((start.value, end.value))
    else
      var page := ParseInt(part);
      if page.None? || page.value < 1 || page.value > maxPage then None
      else Some((page.value, page.value))
  }

  /** The pages from `lo` to `hi`, both included. */
  function Span(lo: int, hi: int): (r: set<int>)
    decreases hi - lo
  {
    if lo > hi then {} else {lo} + Span(lo + 1, hi)
  }

  /** `Span(lo, hi)` holds exactly the numbers from `lo` to `hi`. */
  lemma {:induction false} SpanMembers(lo: int, hi: int)
    ensures forall x :: x in Span(lo, hi) <==> lo <= x <= hi
    decreases hi - lo
  {
    if lo <= hi {
      SpanMembers(lo + 1, hi);
    }
  }

  /** The set of pages the parts name, read left to right, or `None` when some part is rejected. */
  function Selection(parts: seq<string>, maxPage: int): Option<set<int>> {
    if parts == [] then Some({})
    else
      match Selection(parts[..|parts| - 1], maxPage)
      case None => None
      case Some(pages) =>
        match PartBounds(parts[|parts| - 1], maxPage)
        case None => None
        case Some(b) => Some(pages + Span(b.0, b.1))
  }

  predicate Distinct(s: seq<int>) {
    forall i, j :: 0 <= i < j < |s| ==> s[i] != s[j]
  }

  predicate Ascending(s: seq<int>) {
    forall i, j :: 0 <= i < j < |s| ==> s[i] < s[j]
  }

  /** `Set.prototype.add` on a set kept, as a JavaScript `Set` is, in insertion order. */
  function Add(pages: seq<int>, x: int): (r: seq<int>)
    ensures forall y :: y in r <==> y in pages || y == x
    ensures Distinct(pages) ==> Distinct(r)
  {
    if x in pages then pages else pages + [x]
  }

  /** `(a, b) => a - b` as an order. */
  function NumericOrder(a: int, b: int): bool {
    a <= b
  }

  /** The members of `pages` from `lo` to `hi`, counting up. */
  function InOrder(pages: set<int>, lo: int, hi: int): seq<int>
    decreases hi - lo
  {
    if lo > hi then [] else (if lo in pages then [lo] else []) + InOrder(pages, lo + 1, hi)
  }

  /** The result `parsePageRange` promises: the selected pages, counting up from 1. */
  function PageList(rangeStr: string, maxPage: int): Option<seq<int>> {
    match Selection(Parts(rangeStr), maxPage)
    case None => None
    case Some(pages) => Some(InOrder(pages, 1, maxPage))
  }

  /**
   * `parsePageRange(rangeStr, maxPage)`: the pages are gathered part by part
   * into a set, a single page being the range from it to itself, and the
   * set is sorted numerically. `PageListShape` says what the result is.
   */
  method ParsePageRange(rangeStr: string, maxPage: int) returns (r: Option<seq<int>>)
    ensures r == PageList(rangeStr, maxPage)
  {
    var parts := Parts(rangeStr);
    var pages: seq<int> := [];
    assert parts[..0] == [];
    for k := 0 to |parts|
      invariant Selection(parts[..k], maxPage).Some?
      invariant forall x :: x in Selection(parts[..k], maxPage).value <==> x in pages
      invariant Distinct(pages)
    {
      var bounds := PartBounds(parts[k], maxPage);
      SelectionStep(parts, k, maxPage);
      if bounds.None? {
        RejectedPrefix(parts, k + 1, maxPage);
        return None;
      }
      var (start, end) := bounds.value;
      ghost var before := pages;
      for i := start to end + 1
        invariant forall x :: x in pages <==> x in before || start <= x < i
        invariant Distinct(pages)
      {
        pages := Add(pages, i);
      }
    }
    assert parts[..|parts|] == parts;
    var sorted := Sort(pages, NumericOrder);
    SortedDistinct(pages);
    r := Some(sorted);
    ListIsInOrder(parts, maxPage, sorted);
  }

  /** One more part extends the selection by its span, or rejects it. */
  lemma SelectionStep(parts: seq<string>, k: nat, maxPage: int)
    requires k < |parts| && Selection(parts[..k], maxPage).Some?
    ensures var b := PartBounds(parts[k], maxPage);
      (b.None? ==> Selection(parts[..k + 1], maxPage).None?) &&
      (b.Some? ==>
        (Selection(parts[..k + 1], maxPage).Some? &&
         forall x :: x in Selection(parts[..k + 1], maxPage).value <==>
           x in Selection(parts[..k], maxPage).value || b.value.0 <= x <= b.value.1))
  {
    assert parts[..k + 1][..k] == parts[..k];
    var b := PartBounds(parts[k], maxPage);
    if b.Some? {
      SpanMembers(b.value.0, b.value.1);
    }
  }

  /**
   * The page list is `None` exactly when some part is rejected; otherwise it
   * is ascending, so without repetitions, lies within `1..maxPage` and holds
   * exactly the pages some part names.
   */
  lemma PageListShape(rangeStr: string, maxPage: int)
    ensures var r := PageList(rangeStr, maxPage);
      (r.None? <==> Rejected(Parts(rangeStr), maxPage)) &&
      (r.Some? ==> Ascending(r.value) && forall x :: x in r.value ==> 1 <= x <= maxPage) &&
      (r.Some? ==> forall x :: x in r.value <==> exists p :: p in Parts(rangeStr) && Covers(p, maxPage, x))
  {
    var parts := Parts(rangeStr);
    SelectionUnion(parts, maxPage);
    SelectionBounds(parts, maxPage);
    if Selection(parts, maxPage).Some? {
      InOrderShape(Selection(parts, maxPage).value, 1, maxPage);
    }
  }

  /** An ascending list of the selected pages is the one `PageList` names. */
  lemma ListIsInOrder(parts: seq<string>, maxPage: int, s: seq<int>)
    requires Selection(parts, maxPage).Some?
    requires Ascending(s) && forall x :: x in s <==> x in Selection(parts, maxPage).value
    ensures InOrder(Selection(parts, maxPage).value, 1, maxPage) == s
  {
    var pages := Selection(parts, maxPage).value;
    SelectionBounds(parts, maxPage);
    InOrderShape(pages, 1, maxPage);
    AscendingUnique(InOrder(pages, 1, maxPage), s);
  }

  /** `InOrder` is ascending and holds the members of the set within the bounds. */
  lemma {:induction false} InOrderShape(pages: set<int>, lo: int, hi: int)
    ensures Ascending(InOrder(pages, lo, hi))
    ensures forall x :: x in InOrder(pages, lo, hi) <==> x in pages && lo <= x <= hi
    decreases hi - lo
  {
    if lo <= hi {
      InOrderShape(pages, lo + 1, hi);
      var rest := InOrder(pages, lo + 1, hi);
      var r := (if lo in pages then [lo] else []) + rest;
      assert InOrder(pages, lo, hi) == r;
      forall i, j | 0 <= i < j < |r| ensures r[i] < r[j] {
        var d := |r| - |rest|;
        assert r[j] == rest[j - d] && rest[j - d] in rest;
        if i >= d {
          assert r[i] == rest[i - d];
        }
      }
    }
  }

  /** Once a prefix of the parts is rejected, so is the whole list. */
  lemma {:induction false} RejectedPrefix(parts: seq<string>, n: nat, maxPage: int)
    requires n <= |parts| && Selection(parts[..n], maxPage).None?
    ensures Selection(parts, maxPage).None?
    decreases |parts|
  {
    if n == |parts| {
      assert parts[..n] == parts;
    } else {
      var init := parts[..|parts| - 1];
      assert init[..n] == parts[..n];
      RejectedPrefix(init, n, maxPage);
    }
  }

  /** Sorting distinct pages numerically keeps them and puts them in ascending order. */
  lemma SortedDistinct(pages: seq<int>)
    requires Distinct(pages)
    ensures var s := Sort(pages, NumericOrder);
      Ascending(s) && forall x :: x in s <==> x in pages
  {
    var s := Sort(pages, NumericOrder);
    SortSorted(pages, NumericOrder);
    forall x ensures x in s <==> x in pages {
      assert x in s <==> x in multiset(s);
      assert x in pages <==> x in multiset(pages);
    }
    DistinctCounts(pages);
    forall i, j | 0 <= i < j < |s| ensures s[i] < s[j] {
      TwiceCounted(s, i, j);
    }
  }

  /** Every element of a sequence without repetitions occurs once. */
  lemma {:induction false} DistinctCounts(s: seq<int>)
    requires Distinct(s)
    ensures forall x :: multiset(s)[x] <= 1
  {
    if s != [] {
      var init := s[..|s| - 1];
      assert s == init + [s[|s| - 1]];
      DistinctCounts(init);
      assert s[|s| - 1] !in init;
    }
  }

  /** An element at two positions occurs at least twice. */
  lemma TwiceCounted(s: seq<int>, i: nat, j: nat)
    requires i < j < |s|
    ensures s[i] == s[j] ==> multiset(s)[s[i]] >= 2
  {
    assert s == s[..j] + [s[j]] + s[j + 1..];
    assert s[i] in s[..j];
  }

  // ---------------------------------------------------------------------
  // What the parts mean

  /** Every page selected lies in `1..maxPage`. */
  lemma {:induction false} SelectionBounds(parts: seq<string>, maxPage: int)
    ensures var sel := Selection(parts, maxPage);
      sel.Some? ==> forall x :: x in sel.value ==> 1 <= x <= maxPage
  {
    if parts != [] {
      SelectionBounds(parts[..|parts| - 1], maxPage);
      var b := PartBounds(parts[|parts| - 1], maxPage);
      if b.Some? {
        SpanMembers(b.value.0, b.value.1);
      }
    }
  }

  /** Some part of `parts` is rejected. */
  predicate Rejected(parts: seq<string>, maxPage: int) {
    exists p :: p in parts && PartBounds(p, maxPage).None?
  }

  /** The part `p` names the page `x`. */
  predicate Covers(p: string, maxPage: int, x: int) {
    var b := PartBounds(p, maxPage);
    b.Some? && b.value.0 <= x <= b.value.1
  }

  /**
   * The selection fails exactly when one of the parts is rejected, and
   * otherwise it holds exactly the pages some part names.
   */
  lemma {:induction false} SelectionUnion(parts: seq<string>, maxPage: int)
    ensures Selection(parts, maxPage).None? <==> Rejected(parts, maxPage)
    ensures Selection(parts, maxPage).Some? ==>
      forall x :: x in Selection(parts, maxPage).value <==> exists p :: p in parts && Covers(p, maxPage, x)
  {
    if parts != [] {
      SelectionUnion(parts[..|parts| - 1], maxPage);
      UnionStep(parts, maxPage);
    }
  }

  /** One more part at the end. */
  lemma UnionStep(parts: seq<string>, maxPage: int)
    requires parts != []
    requires var init := parts[..|parts| - 1];
      (Selection(init, maxPage).None? <==> Rejected(init, maxPage)) &&
      (Selection(init, maxPage).Some? ==>
        forall x :: x in Selection(init, maxPage).value <==> exists p :: p in init && Covers(p, maxPage, x))
    ensures Selection(parts, maxPage).None? <==> Rejected(parts, maxPage)
    ensures Selection(parts, maxPage).Some? ==>
      forall x :: x in Selection(parts, maxPage).value <==> exists p :: p in parts && Covers(p, maxPage, x)
  {
    var init := parts[..|parts| - 1];
    var last := parts[|parts| - 1];
    LastSplit(parts);
    var b := PartBounds(last, maxPage);
    if Selection(init, maxPage).Some? && b.Some? {
      assert !Rejected(parts, maxPage);
      var sel := Selection(init, maxPage).value;
      SpanMembers(b.value.0, b.value.1);
      assert Selection(parts, maxPage).value == sel + Span(b.value.0, b.value.1);
      forall x ensures x in Selection(parts, maxPage).value <==> exists p :: p in parts && Covers(p, maxPage, x) {
        if x in sel {
          var p :| p in init && Covers(p, maxPage, x);
          assert p in parts;
        } else if b.value.0 <= x <= b.value.1 {
          assert Covers(last, maxPage, x);
        }
        if exists p :: p in parts && Covers(p, maxPage, x) {
          var p :| p in parts && Covers(p, maxPage, x);
          assert p == last || p in init;
        }
      }
    }
  }

  /** The parts are the earlier ones and the last one. */
  lemma LastSplit(parts: seq<string>)
    requires parts != []
    ensures forall p :: p in parts <==> p in parts[..|parts| - 1] || p == parts[|parts| - 1]
  {
    assert parts == parts[..|parts| - 1] + [parts[|parts| - 1]];
  }

  /** The selection depends on which parts there are, not on their order or repetition. */
  lemma OrderFree(a: seq<string>, b: seq<string>, maxPage: int)
    requires forall p :: p in a <==> p in b
    ensures Selection(a, maxPage) == Selection(b, maxPage)
  {
    SelectionUnion(a, maxPage);
    SelectionUnion(b, maxPage);
    assert Rejected(a, maxPage) == Rejected(b, maxPage);
    if Selection(a, maxPage).Some? {
      assert Selection(a, maxPage).value == Selection(b, maxPage).value;
    }
  }

  /** The first element of an ascending list is its least element. */
  lemma FirstIsLeast(s: seq<int>)
    requires Ascending(s) && s != []
    ensures forall x :: x in s ==> s[0] <= x
  {
    forall x | x in s ensures s[0] <= x {
      var j :| 0 <= j < |s| && s[j] == x;
      assert j == 0 || s[0] < s[j];
    }
  }

  /** Two ascending lists of the same pages are the same list. */
  lemma {:induction false} AscendingUnique(s: seq<int>, t: seq<int>)
    requires Ascending(s) && Ascending(t) && forall x :: x in s <==> x in t
    ensures s == t
  {
    assert s != [] ==> s[0] in s;
    assert t != [] ==> t[0] in t;
    if s != [] {
      FirstIsLeast(s);
      FirstIsLeast(t);
      assert s[0] == t[0];
      forall x ensures x in s[1..] <==> x in t[1..] {
        assert x in s[1..] ==> x in s && x != s[0];
        assert x in t[1..] ==> x in t && x != t[0];
        assert s == [s[0]] + s[1..] && t == [t[0]] + t[1..];
      }
      AscendingUnique(s[1..], t[1..]);
    }
  }

  /** Range texts with the same parts, in any order and repeated or not, give the same page list. */
  lemma SameParts(x: string, y: string, maxPage: int)
    requires forall p :: p in Parts(x) <==> p in Parts(y)
    ensures PageList(x, maxPage) == PageList(y, maxPage)
  {
    OrderFree(Parts(x), Parts(y), maxPage);
  }

  /** `a-b` split at its dash. */
  lemma SplitRange(sa: string, sb: string)
    requires !Contains(sa, "-") && !Contains(sb, "-")
    ensures Split(sa + "-" + sb, "-") == [sa, sb]
  {
    CharBorderless('-');
    JoinCons(sa, [sb], "-");
    assert Join([sb], "-") == sb;
    SplitJoin([sa, sb], "-");
  }

  /** A part `a-b` of two numbers names exactly the pages from `a` to `b`. */
  lemma RangePart(sa: string, sb: string, maxPage: int)
    requires |sa| >= 1 && forall i :: 0 <= i < |sa| ==> IsDigit(sa[i])
    requires |sb| >= 1 && forall i :: 0 <= i < |sb| ==> IsDigit(sb[i])
    requires 1 <= DigitsValue(sa) <= DigitsValue(sb) <= maxPage
    ensures PartBounds(sa + "-" + sb, maxPage) == Some((DigitsValue(sa), DigitsValue(sb)))
    ensures forall x :: Covers(sa + "-" + sb, maxPage, x) <==> DigitsValue(sa) <= x <= DigitsValue(sb)
  {
    DigitPieces(sa, sb);
    DigitsTrimmed(sa);
    DigitsTrimmed(sb);
    ParseDigits(sa);
    ParseDigits(sb);
  }

  /** `parseInt` of a string of digits is its value. */
  lemma ParseDigits(s: string)
    requires |s| >= 1 && forall i :: 0 <= i < |s| ==> IsDigit(s[i])
    ensures ParseInt(s) == Some(DigitsValue(s) as int)
  {
    assert IsDigit(s[0]);
    assert !IsSpace(s[0]) && s[0] != '-' && s[0] != '+';
    assert TrimStart(s) == s;
    LeadingDigitsAll(s);
  }

  lemma DigitPieces(sa: string, sb: string)
    requires forall i :: 0 <= i < |sa| ==> IsDigit(sa[i])
    requires forall i :: 0 <= i < |sb| ==> IsDigit(sb[i])
    ensures Contains(sa + "-" + sb, "-") && Split(sa + "-" + sb, "-") == [sa, sb]
  {
    var part := sa + "-" + sb;
    assert part[|sa|..|sa| + 1] == "-";
    assert OccursAt(part, "-", |sa|);
    NoDash(sa);
    NoDash(sb);
    SplitRange(sa, sb);
  }

  /** A part that is a number from `1` to `maxPage` names that page alone. */
  lemma SinglePart(n: nat, maxPage: int)
    requires 1 <= n <= maxPage
    ensures PartBounds(NatToString(n), maxPage) == Some((n, n))
  {
    NoDash(NatToString(n));
    ParseIntOfNatToString(n);
  }

  /**
   * `parseInt` reads the leading digits only: a number followed by
   * anything that does not start with a digit, such as `3abc`, is that page.
   */
  lemma LenientPart(n: nat, rest: string, maxPage: int)
    requires 1 <= n <= maxPage
    requires (rest == [] || !IsDigit(rest[0])) && '-' !in rest
    ensures PartBounds(NatToString(n) + rest, maxPage) == Some((n, n))
  {
    var d := NatToString(n);
    var part := d + rest;
    assert '-' !in d by {
      forall i | 0 <= i < |d| ensures d[i] != '-' {
        assert IsDigit(d[i]);
      }
    }
    assert '-' !in part;
    AbsentChar(part, '-');
    LeadingParse(d, rest);
    NatToStringValue(n);
  }

  /** `parseInt` of digits followed by a non-digit is the value of those digits. */
  lemma LeadingParse(d: string, rest: string)
    requires |d| >= 1 && forall i :: 0 <= i < |d| ==> IsDigit(d[i])
    requires rest == [] || !IsDigit(rest[0])
    ensures ParseInt(d + rest) == Some(DigitsValue(d) as int)
  {
    var part := d + rest;
    assert part[0] == d[0];
    LeadingDigitsOf(d, rest);
    ParseOfDigitStart(part);
  }

  /** `parseInt` of text starting with a digit is the value of its leading digits. */
  lemma ParseOfDigitStart(s: string)
    requires s != [] && IsDigit(s[0])
    ensures LeadingDigits(s) != [] && ParseInt(s) == Some(DigitsValue(LeadingDigits(s)) as int)
  {
    assert !IsSpace(s[0]) && s[0] != '-' && s[0] != '+';
    assert TrimStart(s) == s;
    assert LeadingDigits(s) != [];
  }

  /** The leading digits of digits followed by a non-digit are those digits. */
  lemma {:induction false} LeadingDigitsOf(d: string, rest: string)
    requires forall i :: 0 <= i < |d| ==> IsDigit(d[i])
    requires rest == [] || !IsDigit(rest[0])
    ensures LeadingDigits(d + rest) == d
  {
    if d != [] {
      assert (d + rest)[1..] == d[1..] + rest;
      LeadingDigitsOf(d[1..], rest);
    }
  }

  lemma NoDash(digits: string)
    requires forall i :: 0 <= i < |digits| ==> IsDigit(digits[i])
    ensures !Contains(digits, "-")
  {
    forall i: nat | i + 1 <= |digits| ensures !OccursAt(digits, "-", i) {
      assert digits[i..i + 1][0] == digits[i];
    }
  }

  lemma DigitsTrimmed(digits: string)
    requires |digits| >= 1 && forall i :: 0 <= i < |digits| ==> IsDigit(digits[i])
    ensures Trim(digits) == digits
  {
    TrimOfTrimmed(digits);
  }

  /** Blank or comma-only text names no pages, and that is a selection, not a failure. */
  lemma BlankText(rangeStr: string, maxPage: int)
    requires forall i :: 0 <= i < |rangeStr| ==> rangeStr[i] == ',' || IsSpace(rangeStr[i])
    ensures Parts(rangeStr) == []
    ensures Selection(Parts(rangeStr), maxPage) == Some({})
  {
    var pieces := Split(rangeStr, ",");
    forall j | 0 <= j < |pieces| ensures Trim(pieces[j]) == "" {
      PartOccurs(rangeStr, ",", j);
      NotContainsChar(pieces[j], ',');
      forall e | 0 <= e < |pieces[j]| ensures IsSpace(pieces[j][e]) {
        var d: nat :| d + |pieces[j]| <= |rangeStr| && OccursAt(rangeStr, pieces[j], d);
        assert pieces[j][e] == rangeStr[d + e];
      }
      AllSpaceTrims(pieces[j]);
    }
    AllEmpty(TrimEach(pieces));
  }

  lemma {:induction false} AllSpaceTrims(s: string)
    requires forall e :: 0 <= e < |s| ==> IsSpace(s[e])
    ensures TrimStart(s) == "" && Trim(s) == ""
  {
    if s != [] {
      AllSpaceTrims(s[1..]);
    }
  }

  lemma {:induction false} AllEmpty(parts: seq<string>)
    requires forall j :: 0 <= j < |parts| ==> parts[j] == ""
    ensures NonEmpty(parts) == []
  {
    if parts != [] {
      AllEmpty(parts[1..]);
    }
  }
}
