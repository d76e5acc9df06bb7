/**
 * How the table extractor turns the text items of one PDF page into rows:
 * items are grouped into lines by height, the lines are ordered top to
 * bottom, the table starts at the first line holding the trigger word, and
 * each item of a line goes into the cell of its nearest column anchor.
 * Coordinates are exact reals; only their comparisons matter.
 */
module TableRows {
  import opened Common
  import opened Text
  import opened Sorting

  /** A text item of a page: its string, its baseline `y`, and the scaled x of its centre. */
  datatype Item = Item(str: string, y: real, centerX: real)

  /** A line: the `y` of the item that founded it, and its items in the order they joined. */
  datatype Line = Line(y: real, items: seq<Item>)

  function Abs(x: real): real {
    if x < 0.0 then -x else x
  }

  /** `Math.abs(a - b) < leniency`. */
  predicate Near(a: real, b: real, leniency: real) {
    Abs(a - b) < leniency
  }

  /** `.filter((it) => it.str.trim())`: the items whose string is not blank. */
  function Kept(items: seq<Item>): (r: seq<Item>)
    ensures forall it :: it in r <==> it in items && Trim(it.str) != ""
  {
    if items == [] then []
    else
      var init := items[..|items| - 1];
      var last := items[|items| - 1];
      assert items == init + [last];
      Kept(init) + (if Trim(last.str) != "" then [last] else [])
  }

  /** The filter keeps order and multiplicity: filtering two runs of items concatenates their results. */
  lemma {:induction false} KeptAppend(a: seq<Item>, b: seq<Item>)
    ensures Kept(a + b) == Kept(a) + Kept(b)
    decreases |b|
  {
    if b == [] {
      assert a + b == a;
    } else {
      var init := b[..|b| - 1];
      assert (a + b)[..|a + b| - 1] == a + init;
      assert (a + b)[|a + b| - 1] == b[|b| - 1];
      KeptAppend(a, init);
    }
  }

  /** A single item is kept exactly when its string is not blank. */
  lemma KeptOne(it: Item)
    ensures Kept([it]) == if Trim(it.str) != "" then [it] else []
  {
    assert [it][..0] == [];
  }

  // ---------------------------------------------------------------------
  // Lines

  /** `lines.find((ln) => Math.abs(ln.y - it.y) < rowLeniency)`, as the index of the line found. */
  function FindLine(lines: seq<Line>, y: real, leniency: real): (r: Option<nat>)
    ensures r.Some? ==> r.value < |lines| && Near(lines[r.value].y, y, leniency)
    ensures forall j :: 0 <= j < |lines| && (r.None? || j < r.value) ==> !Near(lines[j].y, y, leniency)
  {
    if lines == [] then None
    else if Near(lines[0].y, y, leniency) then Some(0)
    else
      match FindLine(lines[1..], y, leniency)
      case None => None
      case Some(k) => Some(k + 1)
  }

  /** One step of `items.forEach`: the item joins the line found, or founds a new line. */
  function Place(lines: seq<Line>, it: Item, leniency: real): seq<Line> {
    match FindLine(lines, it.y, leniency)
    case Some(k) => lines[k := lines[k].(items := lines[k].items + [it])]
    case None => lines + [Line(it.y, [it])]
  }

  /** The lines built from `items`, before sorting. */
  function Grouped(items: seq<Item>, leniency: real): seq<Line> {
    if items == [] then []
    else Place(Grouped(items[..|items| - 1], leniency), items[|items| - 1], leniency)
  }

  method GroupLines(items: seq<Item>, leniency: real) returns (lines: seq<Line>)
    ensures lines == Grouped(items, leniency)
  {
    lines := [];
    for i := 0 to |items|
      invariant lines == Grouped(items[..i], leniency)
    {
      assert items[..i + 1][..i] == items[..i];
      var it := items[i];
      var found := FindLine(lines, it.y, leniency);
      if found.Some? {
        var k := found.value;
        lines := lines[k := lines[k].(items := lines[k].items + [it])];
      } else {
        lines := lines + [Line(it.y, [it])];
      }
    }
    assert items[..|items|] == items;
  }

  /** Every item of every line, line by line. */
  function Bag(lines: seq<Line>): multiset<Item> {
    if lines == [] then multiset{} else multiset(lines[0].items) + Bag(lines[1..])
  }

  lemma {:induction false} BagAppend(lines: seq<Line>, l: Line)
    ensures Bag(lines + [l]) == Bag(lines) + multiset(l.items)
  {
    if lines != [] {
      assert (lines + [l])[1..] == lines[1..] + [l];
      BagAppend(lines[1..], l);
    } else {
      assert ([] + [l])[1..] == [];
    }
  }

  /** Adding an item to line `k` adds it to the items of all lines. */
  lemma {:induction false} BagGrow(lines: seq<Line>, k: nat, it: Item)
    requires k < |lines|
    ensures Bag(lines[k := lines[k].(items := lines[k].items + [it])]) == Bag(lines) + multiset{it}
  {
    var after := lines[k := lines[k].(items := lines[k].items + [it])];
    assert Bag(lines) == multiset(lines[0].items) + Bag(lines[1..]);
    assert Bag(after) == multiset(after[0].items) + Bag(after[1..]);
    if k > 0 {
      assert after[0] == lines[0];
      assert after[1..] == lines[1..][k - 1 := lines[1..][k - 1].(items := lines[1..][k - 1].items + [it])];
      BagGrow(lines[1..], k - 1, it);
    } else {
      assert after[1..] == lines[1..];
      assert after[0].items == lines[0].items + [it];
    }
  }

  /** A line founded by its first item, every other item lying within the leniency of it. */
  predicate LineOk(l: Line, leniency: real) {
    |l.items| > 0 && l.items[0].y == l.y &&
    forall j :: 0 < j < |l.items| ==> Near(l.y, l.items[j].y, leniency)
  }

  predicate WellFounded(lines: seq<Line>, leniency: real) {
    forall i :: 0 <= i < |lines| ==> LineOk(lines[i], leniency)
  }

  /** No two lines were founded within the leniency of each other. */
  predicate Apart(lines: seq<Line>, leniency: real) {
    forall i, j :: 0 <= i < j < |lines| ==> !Near(lines[i].y, lines[j].y, leniency)
  }

  /** Placing one item keeps the lines well founded and apart, and adds the item to them. */
  lemma PlaceKeeps(lines: seq<Line>, it: Item, leniency: real)
    requires WellFounded(lines, leniency) && Apart(lines, leniency)
    ensures var after := Place(lines, it, leniency);
      Bag(after) == Bag(lines) + multiset{it} && WellFounded(after, leniency) && Apart(after, leniency)
  {
    match FindLine(lines, it.y, leniency)
    case Some(k) =>
      JoinLine(lines, k, it, leniency);
    case None =>
      FoundLine(lines, it, leniency);
  }

  /** An item joining line `k`, which lies within the leniency of it. */
  lemma JoinLine(lines: seq<Line>, k: nat, it: Item, leniency: real)
    requires WellFounded(lines, leniency) && Apart(lines, leniency)
    requires k < |lines| && Near(lines[k].y, it.y, leniency)
    ensures var after := lines[k := lines[k].(items := lines[k].items + [it])];
      Bag(after) == Bag(lines) + multiset{it} && WellFounded(after, leniency) && Apart(after, leniency)
  {
    var l := lines[k].(items := lines[k].items + [it]);
    var after := lines[k := l];
    BagGrow(lines, k, it);
    assert LineOk(lines[k], leniency);
    assert LineOk(l, leniency) by {
      forall j | 0 < j < |l.items| ensures Near(l.y, l.items[j].y, leniency) {
        if j < |lines[k].items| {
          assert l.items[j] == lines[k].items[j];
        }
      }
    }
    forall i | 0 <= i < |after| ensures LineOk(after[i], leniency) {
      if i != k {
        assert after[i] == lines[i];
      }
    }
    forall i, j | 0 <= i < j < |after| ensures !Near(after[i].y, after[j].y, leniency) {
      assert after[i].y == lines[i].y && after[j].y == lines[j].y;
    }
  }

  /** An item near no line founds a new one. */
  lemma FoundLine(lines: seq<Line>, it: Item, leniency: real)
    requires WellFounded(lines, leniency) && Apart(lines, leniency)
    requires forall j :: 0 <= j < |lines| ==> !Near(lines[j].y, it.y, leniency)
    ensures var after := lines + [Line(it.y, [it])];
      Bag(after) == Bag(lines) + multiset{it} && WellFounded(after, leniency) && Apart(after, leniency)
  {
    var l := Line(it.y, [it]);
    var after := lines + [l];
    BagAppend(lines, l);
    assert LineOk(l, leniency);
    forall i | 0 <= i < |after| ensures LineOk(after[i], leniency) {
      if i < |lines| {
        assert after[i] == lines[i];
      } else {
        assert after[i] == l;
      }
    }
    forall i, j | 0 <= i < j < |after| ensures !Near(after[i].y, after[j].y, leniency) {
      assert after[i] == lines[i];
      if j < |lines| {
        assert after[j] == lines[j];
      } else {
        assert after[j] == l;
      }
    }
  }

  /**
   * Grouping puts every item in exactly one line; each line is founded by
   * its first item and holds only items within the leniency of it; and no
   * two lines were founded within the leniency of each other.
   */
  lemma {:induction false} GroupedShape(items: seq<Item>, leniency: real)
    ensures var lines := Grouped(items, leniency);
      Bag(lines) == multiset(items) && WellFounded(lines, leniency) && Apart(lines, leniency)
  {
    if items != [] {
      var init := items[..|items| - 1];
      var it := items[|items| - 1];
      assert items == init + [it];
      GroupedShape(init, leniency);
      PlaceKeeps(Grouped(init, leniency), it, leniency);
    }
  }

  /** The comparator `(a, b) => b.y - a.y`: higher lines first. */
  predicate ByHeight(a: Line, b: Line) {
    b.y <= a.y
  }

  // ---------------------------------------------------------------------
  // Where the table starts

  /** A line holding the trigger word, ignoring case. */
  predicate HasTrigger(l: Line, word: string) {
    exists j :: 0 <= j < |l.items| && Contains(Lower(l.items[j].str), Lower(word))
  }

  /** `lines.findIndex(...)`, `None` standing for -1. */
  function FindTrigger(lines: seq<Line>, word: string): (r: Option<nat>)
    ensures r.Some? ==> r.value < |lines| && HasTrigger(lines[r.value], word)
    ensures forall j :: 0 <= j < |lines| && (r.None? || j < r.value) ==> !HasTrigger(lines[j], word)
  {
    if lines == [] then None
    else if HasTrigger(lines[0], word) then Some(0)
    else
      match FindTrigger(lines[1..], word)
      case None => None
      case Some(k) => Some(k + 1)
  }

  /** The lines the table is read from: from the first trigger line on, or all of them. */
  function FromTrigger(lines: seq<Line>, word: string): seq<Line> {
    match FindTrigger(lines, word)
    case None => lines
    case Some(k) => lines[k..]
  }

  // ---------------------------------------------------------------------
  // Cells

  /**
   * The anchor loop with `b` and `m`: the index of the first anchor at the
   * least distance from `x` (0 when there are no anchors).
   */
  function Nearest(anchors: seq<real>, x: real): (b: nat)
    ensures |anchors| > 0 ==> b < |anchors|
    ensures |anchors| == 0 ==> b == 0
  {
    if |anchors| <= 1 then 0
    else
      var b := Nearest(anchors[..|anchors| - 1], x);
      if Abs(anchors[|anchors| - 1] - x) < Abs(anchors[b] - x) then |anchors| - 1 else b
  }

  method NearestAnchor(anchors: seq<real>, x: real) returns (b: nat)
    ensures b == Nearest(anchors, x)
  {
    b := 0;
    var m: Option<real> := None;
    for idx := 0 to |anchors|
      invariant idx == 0 ==> b == 0 && m.None?
      invariant idx > 0 ==> b == Nearest(anchors[..idx], x) && m == Some(Abs(anchors[b] - x))
    {
      assert anchors[..idx + 1][..idx] == anchors[..idx];
      var d := Abs(anchors[idx] - x);
      if m.None? || d < m.value {
        m := Some(d);
        b := idx;
      }
    }
    assert anchors[..|anchors|] == anchors;
  }

  /** The nearest anchor is at the least distance, and strictly nearer than every anchor before it. */
  lemma {:induction false} NearestIsFirstClosest(anchors: seq<real>, x: real)
    requires |anchors| > 0
    ensures var b := Nearest(anchors, x);
      (forall j :: 0 <= j < |anchors| ==> Abs(anchors[b] - x) <= Abs(anchors[j] - x)) &&
      (forall j :: 0 <= j < b ==> Abs(anchors[b] - x) < Abs(anchors[j] - x))
  {
    if |anchors| > 1 {
      var init := anchors[..|anchors| - 1];
      NearestIsFirstClosest(init, x);
      assert forall j :: 0 <= j < |init| ==> init[j] == anchors[j];
    }
  }

  /** `r[b] = r[b] ? r[b] + " " + s : s`; writing just past the end grows the array. */
  function Put(r: seq<string>, b: nat, s: string): seq<string>
    requires b <= |r|
  {
    if b < |r| then r[b := if r[b] != "" then r[b] + " " + s else s] else r + [s]
  }

  /** The row of one line: one cell per anchor, or at most one cell when there are none. */
  function Cells(anchors: seq<real>, items: seq<Item>): (r: seq<string>)
    ensures |r| == if |anchors| > 0 then |anchors| else if items == [] then 0 else 1
  {
    if items == [] then seq(|anchors|, _ => "")
    else
      var last := items[|items| - 1];
      Put(Cells(anchors, items[..|items| - 1]), Nearest(anchors, last.centerX), last.str)
  }

  /** `ln.items.forEach(...)` filling `r`. */
  method BucketRow(anchors: seq<real>, items: seq<Item>) returns (r: seq<string>)
    ensures r == Cells(anchors, items)
  {
    r := seq(|anchors|, _ => "");
    for i := 0 to |items|
      invariant r == Cells(anchors, items[..i])
    {
      assert items[..i + 1][..i] == items[..i];
      var it := items[i];
      var b := NearestAnchor(anchors, it.centerX);
      if b < |r| {
        r := r[b := if r[b] != "" then r[b] + " " + it.str else it.str];
      } else {
        r := r + [it.str];
      }
    }
    assert items[..|items|] == items;
  }

  /** The strings of the items whose nearest anchor is `k`, in item order. */
  function Picked(anchors: seq<real>, items: seq<Item>, k: nat): seq<string> {
    if items == [] then []
    else
      var last := items[|items| - 1];
      Picked(anchors, items[..|items| - 1], k) + (if Nearest(anchors, last.centerX) == k then [last.str] else [])
  }

  lemma {:induction false} JoinSnoc(parts: seq<string>, s: string, sep: string)
    requires parts != []
    ensures Join(parts + [s], sep) == Join(parts, sep) + sep + s
  {
    if |parts| > 1 {
      assert (parts + [s])[1..] == parts[1..] + [s];
      JoinSnoc(parts[1..], s, sep);
    }
  }

  lemma JoinNonEmpty(parts: seq<string>, sep: string)
    requires parts != [] && parts[0] != ""
    ensures Join(parts, sep) != ""
  {
  }

  /**
   * Each cell holds the strings of the items nearest its anchor, joined by
   * a space in item order; with no anchors the row is one cell holding every
   * string. Item strings are never empty, since blank items were dropped.
   */
  lemma {:induction false} CellsGather(anchors: seq<real>, items: seq<Item>)
    requires forall i :: 0 <= i < |items| ==> items[i].str != ""
    ensures var r := Cells(anchors, items);
      (forall k :: 0 <= k < |r| ==> r[k] == Join(Picked(anchors, items, k), " ")) &&
      (forall k :: 0 <= k < |r| ==> (r[k] == "" <==> Picked(anchors, items, k) == []))
  {
    if items != [] {
      var init := items[..|items| - 1];
      var last := items[|items| - 1];
      CellsGather(anchors, init);
      var before := Cells(anchors, init);
      var b := Nearest(anchors, last.centerX);
      var r := Cells(anchors, items);
      forall k | 0 <= k < |r|
        ensures r[k] == Join(Picked(anchors, items, k), " ") && (r[k] == "" <==> Picked(anchors, items, k) == [])
      {
        var p := Picked(anchors, init, k);
        if k == b {
          assert Picked(anchors, items, k) == p + [last.str];
          if p == [] {
            assert p + [last.str] == [last.str];
          } else {
            JoinSnoc(p, last.str, " ");
          }
        } else {
          assert Picked(anchors, items, k) == p + [];
          assert p + [] == p;
        }
        if Picked(anchors, items, k) != [] {
          PickedStrings(anchors, items, k);
          assert Picked(anchors, items, k)[0] in Picked(anchors, items, k);
          JoinNonEmpty(Picked(anchors, items, k), " ");
        }
      }
    }
  }

  /** Every picked string is the string of some item. */
  lemma {:induction false} PickedStrings(anchors: seq<real>, items: seq<Item>, k: nat)
    ensures forall s :: s in Picked(anchors, items, k) ==> exists i :: 0 <= i < |items| && items[i].str == s
  {
    if items != [] {
      var init := items[..|items| - 1];
      PickedStrings(anchors, init, k);
      assert forall i :: 0 <= i < |init| ==> init[i] == items[i];
    }
  }

  // ---------------------------------------------------------------------
  // A page

  /** One row per line. */
  function LineRows(lines: seq<Line>, anchors: seq<real>): (rows: seq<seq<string>>)
    ensures |rows| == |lines|
    ensures forall i :: 0 <= i < |lines| ==> rows[i] == Cells(anchors, lines[i].items)
  {
    if lines == [] then []
    else LineRows(lines[..|lines| - 1], anchors) + [Cells(anchors, lines[|lines| - 1].items)]
  }

  /** The rows of a page: its non-blank items in lines from top to bottom, from the trigger line on. */
  function PageRows(items: seq<Item>, rowLeniency: real, triggerWord: string, anchors: seq<real>): seq<seq<string>> {
    LineRows(FromTrigger(Sort(Grouped(Kept(items), rowLeniency), ByHeight), triggerWord), anchors)
  }

  /** The per-page body of `extractFromPdf` once the page's text items are read. */
  method ExtractPage(items: seq<Item>, rowLeniency: real, triggerWord: string, anchors: seq<real>)
    returns (rows: seq<seq<string>>)
    ensures rows == PageRows(items, rowLeniency, triggerWord, anchors)
  {
    var kept := Kept(items);
    var lines := GroupLines(kept, rowLeniency);
    lines := Sort(lines, ByHeight);
    var chosen := FromTrigger(lines, triggerWord);
    rows := BucketRows(chosen, anchors);
  }

  /** `.map((ln) => ...)` over the lines read. */
  method BucketRows(lines: seq<Line>, anchors: seq<real>) returns (rows: seq<seq<string>>)
    ensures rows == LineRows(lines, anchors)
  {
    rows := [];
    for i := 0 to |lines|
      invariant |rows| == i && forall j :: 0 <= j < i ==> rows[j] == Cells(anchors, lines[j].items)
    {
      var row := BucketRow(anchors, lines[i].items);
      rows := rows + [row];
    }
  }

  /** The table starts at the first line holding the trigger word, or takes every line. */
  lemma FromTriggerSlice(lines: seq<Line>, word: string)
    ensures (forall i :: 0 <= i < |lines| ==> !HasTrigger(lines[i], word)) ==> FromTrigger(lines, word) == lines
    ensures forall k :: (0 <= k < |lines| && HasTrigger(lines[k], word) &&
      (forall i :: 0 <= i < k ==> !HasTrigger(lines[i], word))) ==> FromTrigger(lines, word) == lines[k..]
  {
  }

  /** Every row has one cell per anchor. */
  lemma RowWidths(lines: seq<Line>, anchors: seq<real>)
    requires |anchors| > 0
    ensures forall r :: 0 <= r < |LineRows(lines, anchors)| ==> |LineRows(lines, anchors)[r]| == |anchors|
  {
  }

  /**
   * The lines of a page are its non-blank items grouped into lines, ordered
   * from the top down; the rows are read from the first line holding the
   * trigger word when there is one, else from every line; and every row
   * has one cell per anchor.
   */
  lemma PageShape(items: seq<Item>, rowLeniency: real, triggerWord: string, anchors: seq<real>)
    ensures var grouped := Grouped(Kept(items), rowLeniency);
      var all := Sort(grouped, ByHeight);
      var rows := PageRows(items, rowLeniency, triggerWord, anchors);
      multiset(all) == multiset(grouped) &&
      (forall i, j :: 0 <= i < j < |all| ==> all[j].y <= all[i].y) &&
      ((forall i :: 0 <= i < |all| ==> !HasTrigger(all[i], triggerWord)) ==> rows == LineRows(all, anchors)) &&
      (forall k :: (0 <= k < |all| && HasTrigger(all[k], triggerWord) &&
        (forall i :: 0 <= i < k ==> !HasTrigger(all[i], triggerWord))) ==> rows == LineRows(all[k..], anchors)) &&
      (|anchors| > 0 ==> forall r :: 0 <= r < |rows| ==> |rows[r]| == |anchors|)
  {
    var grouped := Grouped(Kept(items), rowLeniency);
    var all := Sort(grouped, ByHeight);
    SortSorted(grouped, ByHeight);
    ChosenRows(all, triggerWord, anchors);
  }

  /** The rows read from sorted lines `all`: from the first trigger line when there is one, one cell per anchor. */
  lemma ChosenRows(all: seq<Line>, triggerWord: string, anchors: seq<real>)
    ensures var rows := LineRows(FromTrigger(all, triggerWord), anchors);
      ((forall i :: 0 <= i < |all| ==> !HasTrigger(all[i], triggerWord)) ==> rows == LineRows(all, anchors)) &&
      (forall k :: (0 <= k < |all| && HasTrigger(all[k], triggerWord) &&
        (forall i :: 0 <= i < k ==> !HasTrigger(all[i], triggerWord))) ==> rows == LineRows(all[k..], anchors)) &&
      (|anchors| > 0 ==> forall r :: 0 <= r < |rows| ==> |rows[r]| == |anchors|)
  {
    FromTriggerSlice(all, triggerWord);
    if |anchors| > 0 {
      RowWidths(FromTrigger(all, triggerWord), anchors);
    }
  }

  // ---------------------------------------------------------------------
  // Copying

  /** The data of one page: its number and its rows. */
  datatype PageData = PageData(page: int, rows: seq<seq<string>>)

  /** `extractedData.flatMap((p) => p.rows)`. */
  function AllRows(pages: seq<PageData>): seq<seq<string>> {
    if pages == [] then [] else pages[0].rows + AllRows(pages[1..])
  }

  /** `copyTSV`'s text: cells joined by tabs, rows by line feeds. */
  function Tsv(pages: seq<PageData>): string {
    var rows := AllRows(pages);
    Join(seq(|rows|, i requires 0 <= i < |rows| => Join(rows[i], "\t")), "\n")
  }

  /**
   * When no cell holds a tab or a line feed and no row is empty, the copied
   * text splits back, by line feeds and then tabs, into every row of every
   * page in page order.
   */
  lemma TsvReadsBack(pages: seq<PageData>)
    requires AllRows(pages) != []
    requires forall r :: 0 <= r < |AllRows(pages)| ==>
      (|AllRows(pages)[r]| > 0 &&
       forall c :: 0 <= c < |AllRows(pages)[r]| ==> '\t' !in AllRows(pages)[r][c] && '\n' !in AllRows(pages)[r][c])
    ensures var lines := Split(Tsv(pages), "\n");
      |lines| == |AllRows(pages)| && forall r :: 0 <= r < |lines| ==> Split(lines[r], "\t") == AllRows(pages)[r]
  {
    var rows := AllRows(pages);
    var texts := seq(|rows|, i requires 0 <= i < |rows| => Join(rows[i], "\t"));
    CharBorderless('\n');
    CharBorderless('\t');
    forall r | 0 <= r < |rows| ensures !Contains(texts[r], "\n") && Split(texts[r], "\t") == rows[r] {
      JoinAvoids(rows[r], "\t", '\n');
      AbsentChar(texts[r], '\n');
      forall c | 0 <= c < |rows[r]| ensures !Contains(rows[r][c], "\t") {
        AbsentChar(rows[r][c], '\t');
      }
      SplitJoin(rows[r], "\t");
    }
    SplitJoin(texts, "\n");
  }
}
