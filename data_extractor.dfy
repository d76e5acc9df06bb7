/**
 * The document parsers of the PDF data extractor: the default
 * `generalDocumentParser`, which turns one metadata match and the table
 * matches into a canonical row stream of width seven, the two bespoke
 * parsers (GST Challan and IDBI Bank Statement), and the table of built-in
 * parsers with their keywords and patterns.
 */
module DataExtractor {
  import opened Common
  import opened Text
  import opened Patterns

  type Row = seq<string>

  /** `{ allRows, metadataFields }`. */
  datatype ParserResult = ParserResult(allRows: seq<Row>, metadataFields: Fields)

  /** Every row the extractor emits is seven cells wide. */
  const Width: nat := 7

  function Blanks(n: nat): (r: Row)
    ensures |r| == n && forall i :: 0 <= i < n ==> r[i] == ""
  {
    seq(n, _ => "")
  }

  /** `[key, val, "", "", "", "", ""]`. */
  function MetadataRow(key: string, val: string): Row {
    [key, val] + Blanks(Width - 2)
  }

  /** Pad with `""` up to seven cells, then keep the first seven. */
  function Fit(cells: Row): (r: Row)
    ensures |r| == Width
    ensures forall i :: 0 <= i < Width ==> r[i] == if i < |cells| then cells[i] else ""
  {
    if |cells| >= Width then cells[..Width] else cells + Blanks(Width - |cells|)
  }

  /** The metadata value `value ? value.trim() : ""`. */
  function MetaValue(v: Option<string>): string {
    match v
    case Some(s) => if s == "" then "" else Trim(s)
    case None => ""
  }

  /** A table cell `val ? val.trim().replace(/,/g, "") : ""`. */
  function CleanCell(v: Option<string>): (r: string)
    ensures ',' !in r
  {
    match v
    case Some(s) => if s == "" then "" else RemoveChar(Trim(s), ',')
    case None => ""
  }

  /** A group's value as `Object.assign` copies it; `undefined` becomes `""`. */
  function RawValue(v: Option<string>): string {
    match v
    case Some(s) => s
    case None => ""
  }

  /** The named groups of a match with each value passed through `f`, keys and order kept. */
  function MapGroups(g: NamedGroups, f: Option<string> -> string): (r: Fields)
    ensures |r| == |g| && KeysOf(r) == KeysOf(g)
    ensures forall i :: 0 <= i < |g| ==> r[i] == (g[i].0, f(g[i].1))
  {
    var r := seq(|g|, i requires 0 <= i < |g| => (g[i].0, f(g[i].1)));
    assert forall i :: 0 <= i < |g| ==> r[i].0 == g[i].0;
    assert KeysOf(r) == KeysOf(g);
    r
  }

  /** Looking a key up in the mapped groups gives the group's value through `f`; a key that is no group is absent. */
  lemma MapGroupsFinds(g: NamedGroups, f: Option<string> -> string)
    ensures forall i :: 0 <= i < |g| ==> Lookup(MapGroups(g, f), g[i].0) == Some(f(g[i].1))
    ensures forall k :: k !in KeysOf(g) ==> Lookup(MapGroups(g, f), k).None?
  {
    var r := MapGroups(g, f);
    forall i | 0 <= i < |g| ensures Lookup(r, g[i].0) == Some(f(g[i].1)) {
      LookupAt(r, i);
    }
    forall k | k !in KeysOf(g) ensures Lookup(r, k).None? {
      LookupFinds(r, k);
    }
  }

  /** A named-group header: `k.charAt(0).toUpperCase() + k.slice(1).replace(/_/g, " ")`. */
  function HeaderName(k: string): string {
    if k == [] then [] else [UpperChar(k[0])] + ReplaceChar(k[1..], '_', ' ')
  }

  /** A positional header `Col ${i + 1}`. */
  function ColName(i: nat): string {
    "Col " + NatToString(i + 1)
  }

  /** Header cells of the first match, before fitting to width seven. */
  function HeaderCells(m: RegexMatch): Row {
    if |m.groups| > 0 then seq(|m.groups|, i requires 0 <= i < |m.groups| => HeaderName(m.groups[i].0))
    else seq(|m.captures|, i requires 0 <= i < |m.captures| => ColName(i))
  }

  /** The cleaned values of a match: `Object.values(m.groups)` or `m.slice(1)`. */
  function MatchCells(m: RegexMatch): Row {
    if |m.groups| > 0 then seq(|m.groups|, i requires 0 <= i < |m.groups| => CleanCell(m.groups[i].1))
    else seq(|m.captures|, i requires 0 <= i < |m.captures| => CleanCell(m.captures[i]))
  }

  /** The metadata match, or none when there is no metadata pattern. */
  function MetaAttempt(engine: Engine, text: string, metaRx: Option<Pattern>): Attempt<Option<RegexMatch>> {
    match metaRx
    case None => Done(None)
    case Some(p) => engine.firstMatch(p, text)
  }

  /** The table matches; none when there is no table pattern or `matchAll` throws. */
  function TableMatches(engine: Engine, text: string, tableRx: Option<Pattern>): seq<RegexMatch> {
    match tableRx
    case None => []
    case Some(p) =>
      match engine.allMatches(p, text)
      case Done(ms) => ms
      case Threw => []
  }

  /** The metadata fields of the default parser; a throwing match yields none. */
  function GeneralFields(engine: Engine, text: string, metaRx: Option<Pattern>): Fields {
    match MetaAttempt(engine, text, metaRx)
    case Done(Some(m)) => MapGroups(m.groups, MetaValue)
    case _ => []
  }

  function MetadataRows(fields: seq<(string, string)>): seq<Row> {
    seq(|fields|, i requires 0 <= i < |fields| => MetadataRow(fields[i].0, fields[i].1))
  }

  function HeaderRow(ms: seq<RegexMatch>): Row {
    if ms == [] then [] else Fit(HeaderCells(ms[0]))
  }

  function DataRows(ms: seq<RegexMatch>): seq<Row> {
    seq(|ms|, i requires 0 <= i < |ms| => Fit(MatchCells(ms[i])))
  }

  /** What `generalDocumentParser(text, metaRx, tableRx)` returns. */
  function GeneralSpec(engine: Engine, text: string, metaRx: Option<Pattern>, tableRx: Option<Pattern>): ParserResult {
    var fields := GeneralFields(engine, text, metaRx);
    var ms := TableMatches(engine, text, tableRx);
    ParserResult(MetadataRows(fields) + [HeaderRow(ms)] + DataRows(ms), fields)
  }

  /** The padding loops: pad with `""` while shorter than seven, then cut to seven. */
  method FitWidth(cells: Row) returns (r: Row)
    ensures r == Fit(cells)
  {
    r := cells;
    while |r| < Width
      invariant |cells| <= |r| <= if |cells| < Width then Width else |cells|
      invariant r == cells + Blanks(|r| - |cells|)
    {
      r := r + [""];
    }
    if |r| > Width {
      r := r[..Width];
    }
  }

  /** `generalDocumentParser`. */
  method GeneralDocumentParser(engine: Engine, text: string, metaRx: Option<Pattern>, tableRx: Option<Pattern>)
    returns (r: ParserResult)
    ensures r == GeneralSpec(engine, text, metaRx, tableRx)
  {
    var metadataRows: seq<Row> := [];
    var metadataFields: seq<(string, string)> := [];
    ghost var expected := GeneralFields(engine, text, metaRx);
    if metaRx.Some? {
      var metaMatch := engine.firstMatch(metaRx.value, text);
      if metaMatch.Done? && metaMatch.value.Some? {
        var groups := metaMatch.value.value.groups;
        var i := 0;
        while i < |groups|
          invariant 0 <= i <= |groups| && |expected| == |groups|
          invariant metadataFields == expected[..i]
          invariant metadataRows == MetadataRows(expected[..i])
        {
          var (key, value) := groups[i];
          var val := MetaValue(value);
          metadataFields := metadataFields + [(key, val)];
          metadataRows := metadataRows + [MetadataRow(key, val)];
          i := i + 1;
        }
      }
    }
    assert metadataFields == expected;
    var headers: Row := [];
    var dataRows: seq<Row> := [];
    if tableRx.Some? {
      var attempt := engine.allMatches(tableRx.value, text);
      if attempt.Done? && |attempt.value| > 0 {
        var matches := attempt.value;
        headers := FitWidth(HeaderCells(matches[0]));
        var j := 0;
        while j < |matches|
          invariant 0 <= j <= |matches|
          invariant dataRows == DataRows(matches[..j])
        {
          var row := FitWidth(MatchCells(matches[j]));
          dataRows := dataRows + [row];
          j := j + 1;
        }
        assert matches[..j] == matches;
      }
    }
    r := ParserResult(metadataRows + [headers] + dataRows, metadataFields);
  }

  /** The table produced at least one match. */
  predicate TableMatched(engine: Engine, text: string, tableRx: Option<Pattern>) {
    TableMatches(engine, text, tableRx) != []
  }

  /**
   * The header row sits right after the metadata rows. It has exactly seven
   * entries when the table pattern matched at least once; with no table
   * pattern, no match or a throwing `matchAll` it is `[]` and no data row
   * follows.
   */
  lemma HeaderWidth(engine: Engine, text: string, metaRx: Option<Pattern>, tableRx: Option<Pattern>)
    ensures var r := GeneralSpec(engine, text, metaRx, tableRx);
      var n := |r.metadataFields|;
      |r.allRows| > n &&
      (|r.allRows[n]| == Width <==> TableMatched(engine, text, tableRx)) &&
      (!TableMatched(engine, text, tableRx) ==> r.allRows[n] == [] && |r.allRows| == n + 1)
  {
    var r := GeneralSpec(engine, text, metaRx, tableRx);
    var n := |r.metadataFields|;
    assert r.allRows[n] == HeaderRow(TableMatches(engine, text, tableRx));
  }

  /**
   * Every data row is seven cells wide; cell `i` is the cleaned `i`-th group
   * (trimmed, commas removed, `""` for an empty or missing value), and the
   * cells past the match's groups are `""`.
   */
  lemma DataRowsShape(engine: Engine, text: string, metaRx: Option<Pattern>, tableRx: Option<Pattern>, k: nat, i: nat)
    requires var r := GeneralSpec(engine, text, metaRx, tableRx);
      |r.metadataFields| + 1 <= k < |r.allRows| && i < Width
    ensures var r := GeneralSpec(engine, text, metaRx, tableRx);
      var ms := TableMatches(engine, text, tableRx);
      var m := ms[k - (|r.metadataFields| + 1)];
      var vals := if |m.groups| > 0 then ValuesOf(m.groups) else m.captures;
      |r.allRows[k]| == Width &&
      ',' !in r.allRows[k][i] &&
      r.allRows[k][i] == (if i < |vals| then CleanCell(vals[i]) else "")
  {
    var r := GeneralSpec(engine, text, metaRx, tableRx);
    var ms := TableMatches(engine, text, tableRx);
    var j := k - (|r.metadataFields| + 1);
    GeneralRowAt(engine, text, metaRx, tableRx, k);
    MatchRowShape(ms[j], i);
  }

  /** Row `k` past the header is the fitted row of table match `k - n - 1`. */
  lemma GeneralRowAt(engine: Engine, text: string, metaRx: Option<Pattern>, tableRx: Option<Pattern>, k: nat)
    requires var r := GeneralSpec(engine, text, metaRx, tableRx);
      |r.metadataFields| + 1 <= k < |r.allRows|
    ensures var r := GeneralSpec(engine, text, metaRx, tableRx);
      var ms := TableMatches(engine, text, tableRx);
      k - (|r.metadataFields| + 1) < |ms| &&
      r.allRows[k] == Fit(MatchCells(ms[k - (|r.metadataFields| + 1)]))
  {
    var r := GeneralSpec(engine, text, metaRx, tableRx);
    var ms := TableMatches(engine, text, tableRx);
    GeneralLayout(engine, text, metaRx, tableRx);
    DataRowAt(r.allRows, |r.metadataFields| + 1, ms, k);
  }

  /** The row stream: the metadata rows, the header row, then one fitted row per table match. */
  lemma GeneralLayout(engine: Engine, text: string, metaRx: Option<Pattern>, tableRx: Option<Pattern>)
    ensures var r := GeneralSpec(engine, text, metaRx, tableRx);
      var n := |r.metadataFields|;
      var ms := TableMatches(engine, text, tableRx);
      |r.allRows| == n + 1 + |ms| && r.allRows[n] == HeaderRow(ms) && r.allRows[n + 1..] == DataRows(ms)
  {
    var r := GeneralSpec(engine, text, metaRx, tableRx);
    var fields := r.metadataFields;
    var ms := TableMatches(engine, text, tableRx);
    var head := MetadataRows(fields);
    assert |head| == |fields|;
    assert r.allRows == head + [HeaderRow(ms)] + DataRows(ms);
    assert r.allRows[|fields| + 1..] == DataRows(ms);
  }

  /** A row stream whose tail from `s` is `DataRows(ms)` holds at `p` the row of match `p - s`. */
  lemma DataRowAt(all: seq<Row>, s: nat, ms: seq<RegexMatch>, p: nat)
    requires s <= p < |all| && all[s..] == DataRows(ms)
    ensures p - s < |ms| && all[p] == Fit(MatchCells(ms[p - s]))
  {
    assert all[p] == all[s..][p - s];
  }

  /** Cell `i` of the row made from one match. */
  lemma MatchRowShape(m: RegexMatch, i: nat)
    requires i < Width
    ensures var vals := if |m.groups| > 0 then ValuesOf(m.groups) else m.captures;
      var row := Fit(MatchCells(m));
      |row| == Width && ',' !in row[i] &&
      row[i] == (if i < |vals| then CleanCell(vals[i]) else "")
  {
  }

  /**
   * Header names: with named groups, the group name with its first character
   * upper-cased and every `_` after it a space; otherwise `Col 1` .. `Col n`
   * for the `n` captures of the first match. Cells past those are `""`.
   */
  lemma HeaderNames(engine: Engine, text: string, metaRx: Option<Pattern>, tableRx: Option<Pattern>, i: nat)
    requires TableMatched(engine, text, tableRx) && i < Width
    ensures var r := GeneralSpec(engine, text, metaRx, tableRx);
      var first := TableMatches(engine, text, tableRx)[0];
      var h := r.allRows[|r.metadataFields|];
      (|first.groups| > 0 ==>
        h[i] == if i < |first.groups| then HeaderName(first.groups[i].0) else "") &&
      (|first.groups| == 0 ==>
        h[i] == if i < |first.captures| then "Col " + NatToString(i + 1) else "")
  {
    var r := GeneralSpec(engine, text, metaRx, tableRx);
    assert r.allRows[|r.metadataFields|] == HeaderRow(TableMatches(engine, text, tableRx));
  }

  /** A header name keeps the group name's length, upper-cases its head and has no `_` after it. */
  lemma HeaderNameShape(k: string)
    requires k != []
    ensures var h := HeaderName(k);
      |h| == |k| && h[0] == UpperChar(k[0]) && '_' !in h[1..] &&
      forall j :: 1 <= j < |k| && k[j] != '_' ==> h[j] == k[j]
  {
    var h := HeaderName(k);
    assert h[1..] == ReplaceChar(k[1..], '_', ' ');
  }

  /** The positional header names are pairwise different. */
  lemma ColNamesDistinct(i: nat, j: nat)
    requires i != j
    ensures ColName(i) != ColName(j)
  {
    if ColName(i) == ColName(j) {
      PrefixCancel("Col ", NatToString(i + 1), NatToString(j + 1));
      NatToStringInjective(i + 1, j + 1);
    }
  }

  /**
   * One metadata field per named group of the metadata match, in group
   * order, trimmed; each gives a seven-wide row `[key, val, "", ...]` at the
   * head of `allRows`, and `|allRows| = |fields| + 1 + |data rows|`.
   */
  lemma MetadataAndRowCount(engine: Engine, text: string, metaRx: Option<Pattern>, tableRx: Option<Pattern>)
    ensures var r := GeneralSpec(engine, text, metaRx, tableRx);
      var f := r.metadataFields;
      var ms := TableMatches(engine, text, tableRx);
      (match MetaAttempt(engine, text, metaRx)
       case Done(Some(m)) =>
         KeysOf(f) == KeysOf(m.groups) &&
         forall i :: 0 <= i < |f| ==> f[i].1 == MetaValue(m.groups[i].1)
       case _ => f == []) &&
      (forall i :: 0 <= i < |f| ==> r.allRows[i] == [f[i].0, f[i].1, "", "", "", "", ""]) &&
      |r.allRows| == |f| + 1 + |ms|
  {
    var r := GeneralSpec(engine, text, metaRx, tableRx);
    var f := r.metadataFields;
    forall i | 0 <= i < |f| ensures r.allRows[i] == [f[i].0, f[i].1, "", "", "", "", ""] {
      assert r.allRows[i] == MetadataRows(f)[i];
    }
  }

  /**
   * Metadata and table extraction fail independently: the fields do not
   * depend on the table pattern, and everything from the header row on does
   * not depend on the metadata pattern. A throwing `matchAll` gives the same
   * result as having no table pattern.
   */
  lemma IndependentFailure(engine: Engine, text: string, metaRx: Option<Pattern>, tableRx: Option<Pattern>)
    ensures var r := GeneralSpec(engine, text, metaRx, tableRx);
      r.metadataFields == GeneralSpec(engine, text, metaRx, None).metadataFields &&
      r.allRows[|r.metadataFields|..] == GeneralSpec(engine, text, None, tableRx).allRows
    ensures tableRx.Some? && engine.allMatches(tableRx.value, text).Threw? ==>
      GeneralSpec(engine, text, metaRx, tableRx) == GeneralSpec(engine, text, metaRx, None)
  {
    var r := GeneralSpec(engine, text, metaRx, tableRx);
    var ms := TableMatches(engine, text, tableRx);
    assert r.allRows[|r.metadataFields|..] == [HeaderRow(ms)] + DataRows(ms);
    assert GeneralSpec(engine, text, None, tableRx).allRows == [] + [HeaderRow(ms)] + DataRows(ms);
  }

  // ---------------------------------------------------------------------
  // GST Challan

  /** `/Total Amount\s+([\d,]+)/`. */
  const TotalAmountPattern := Pattern(@"Total Amount\s+([\d,]+)", "")

  /** The fixed GST header. */
  const GstHeaders: Row := ["Head", "Tax", "Interest", "Penalty", "Fees", "Others", "Total"]

  /** The named groups a GST table row is read from, in column order. */
  const GstGroupNames: seq<string> := ["name", "tax", "interest", "penalty", "fees", "others", "total"]

  /** The text of each named group of `names`, in order. */
  function GroupCells(m: RegexMatch, names: seq<string>): Row {
    if names == [] then [] else [GroupText(m, names[0])] + GroupCells(m, names[1..])
  }

  /** A GST table row, one cell per group of `GstGroupNames`; `[]` for a match without named groups. */
  function GstRow(m: RegexMatch): Row {
    if |m.groups| > 0 then GroupCells(m, GstGroupNames) else []
  }

  /** Some table match already is the `Total` row. */
  predicate HasTotalRow(ms: seq<RegexMatch>) {
    ms != [] && (GroupText(ms[0], "name") == "Total" || HasTotalRow(ms[1..]))
  }

  function GrandTotalRow(total: RegexMatch): Row {
    var amount := if |total.captures| > 0 then RawValue(total.captures[0]) else "";
    ["Grand Total", "-", "-", "-", "-", "-", RemoveChar(amount, ',')]
  }

  /** The GST metadata fields: the raw named groups of the metadata match. */
  function GstFields(meta: Option<RegexMatch>): Fields {
    if meta.Some? then MapGroups(meta.value.groups, RawValue) else []
  }

  /** One GST row per table match. */
  function GstRows(ms: seq<RegexMatch>): seq<Row> {
    seq(|ms|, i requires 0 <= i < |ms| => GstRow(ms[i]))
  }

  /** The `Grand Total` row, appended only when the total matched and no row is `Total`. */
  function GstExtra(ms: seq<RegexMatch>, total: Option<RegexMatch>): seq<Row> {
    if total.Some? && !HasTotalRow(ms) then [GrandTotalRow(total.value)] else []
  }

  /** The GST result for the metadata match, the table matches and the Total Amount match. */
  function GstResult(meta: Option<RegexMatch>, ms: seq<RegexMatch>, total: Option<RegexMatch>): ParserResult {
    var fields := GstFields(meta);
    ParserResult(MetadataRows(fields) + [GstHeaders] + GstRows(ms) + GstExtra(ms, total), fields)
  }

  /** The GST Challan parser; a throwing match propagates. */
  function GstChallan(engine: Engine, text: string, metaRx: Pattern, tableRx: Pattern): Attempt<ParserResult> {
    match engine.firstMatch(metaRx, text)
    case Threw => Threw
    case Done(meta) =>
      match engine.allMatches(tableRx, text)
      case Threw => Threw
      case Done(ms) =>
        match engine.firstMatch(TotalAmountPattern, text)
        case Threw => Threw
        case Done(total) => Done(GstResult(meta, ms, total))
  }

  /**
   * GST Challan: the metadata fields are the raw named groups; the header is
   * the fixed seven names, one row follows per table match, and a `Grand
   * Total` row with the commas of the total taken out is appended exactly
   * when the Total Amount pattern matched and no table row is named `Total`.
   */
  lemma GstGrandTotal(meta: Option<RegexMatch>, ms: seq<RegexMatch>, total: Option<RegexMatch>)
    ensures var r := GstResult(meta, ms, total);
      (meta.Some? ==> KeysOf(r.metadataFields) == KeysOf(meta.value.groups)) &&
      (meta.None? ==> r.metadataFields == [])
    ensures var r := GstResult(meta, ms, total); var n := |r.metadataFields|;
      |r.allRows| == n + 1 + |ms| + (if total.Some? && !HasTotalRow(ms) then 1 else 0) &&
      r.allRows[n] == GstHeaders
    ensures var r := GstResult(meta, ms, total); var n := |r.metadataFields|;
      n + 1 + |ms| <= |r.allRows| && r.allRows[n + 1..n + 1 + |ms|] == GstRows(ms)
    ensures var r := GstResult(meta, ms, total);
      total.Some? && !HasTotalRow(ms) ==>
        |r.allRows| > 0 &&
        var last := r.allRows[|r.allRows| - 1];
        |last| == Width && last[0] == "Grand Total" && ',' !in last[6]
  {
    var r := GstResult(meta, ms, total);
    GstPieces(meta, ms, total);
    if total.Some? && !HasTotalRow(ms) {
      GrandTotalShape(total.value);
    }
  }

  /** Where the fields, the header, the table rows and the appended row sit in a GST result. */
  lemma GstPieces(meta: Option<RegexMatch>, ms: seq<RegexMatch>, total: Option<RegexMatch>)
    ensures var r := GstResult(meta, ms, total); var n := |r.metadataFields|;
      (meta.Some? ==> KeysOf(r.metadataFields) == KeysOf(meta.value.groups)) &&
      (meta.None? ==> r.metadataFields == []) &&
      |r.allRows| == n + 1 + |ms| + |GstExtra(ms, total)| && r.allRows[n] == GstHeaders &&
      r.allRows[n + 1..n + 1 + |ms|] == GstRows(ms) &&
      (total.Some? && !HasTotalRow(ms) ==> r.allRows[|r.allRows| - 1] == GrandTotalRow(total.value))
  {
    var r := GstResult(meta, ms, total);
    var head := MetadataRows(r.metadataFields);
    var n := |head|;
    assert n == |r.metadataFields|;
    assert r.allRows == head + [GstHeaders] + GstRows(ms) + GstExtra(ms, total);
    assert r.allRows[n + 1..n + 1 + |ms|] == GstRows(ms);
  }

  /** A slice of a row stream that is `GstRows(ms)` holds one GST row per match, in order. */
  lemma GstRowsAt(all: seq<Row>, k: nat, ms: seq<RegexMatch>)
    requires k + |ms| <= |all| && all[k..k + |ms|] == GstRows(ms)
    ensures forall p :: k <= p < k + |ms| ==> all[p] == GstRow(ms[p - k])
  {
    forall p | k <= p < k + |ms| ensures all[p] == GstRow(ms[p - k]) {
      assert all[p] == all[k..k + |ms|][p - k];
    }
  }

  /** The appended row is seven cells wide and its amount holds no comma. */
  lemma GrandTotalShape(total: RegexMatch)
    ensures var last := GrandTotalRow(total);
      |last| == Width && last[0] == "Grand Total" && ',' !in last[6]
  {
    var amount := if |total.captures| > 0 then RawValue(total.captures[0]) else "";
    var cell := RemoveChar(amount, ',');
    assert ',' !in cell;
    assert GrandTotalRow(total)[6] == cell;
  }

  // ---------------------------------------------------------------------
  // IDBI Bank Statement

  /** `groups?.Name?.trim() || "N/A"`. */
  function IdbiAccountName(meta: Option<RegexMatch>): string {
    match meta
    case Some(m) =>
      (var g: Option<Option<string>> := Lookup(m.groups, "Name"); match g
       case Some(Some(v)) => if Trim(v) != "" then Trim(v) else "N/A"
       case _ => "N/A")
    case None => "N/A"
  }

  /** `groups?.AccNo || "N/A"`. */
  function IdbiAccountNumber(meta: Option<RegexMatch>): string {
    match meta
    case Some(m) =>
      (var g: Option<Option<string>> := Lookup(m.groups, "AccNo"); match g
       case Some(Some(v)) => if v != "" then v else "N/A"
       case _ => "N/A")
    case None => "N/A"
  }

  /** One IDBI row: debits signed, amount and balance without commas, a blank seventh cell. */
  function IdbiRow(m: RegexMatch): Row {
    var ty := GroupText(m, "type");
    var amount := if ty == "Dr." then "-" + GroupText(m, "Amt") else GroupText(m, "Amt");
    [GroupText(m, "date"), Trim(GroupText(m, "particular")), ty, RemoveChar(amount, ','),
     GroupText(m, "serialNo"), RemoveChar(GroupText(m, "Bal"), ','), ""]
  }

  const IdbiHeaders: Row := ["Date", "Particulars/Description", "Type", "Amount", "Serial No", "Balance", ""]

  /** The IDBI result for a metadata match and the table matches. */
  function IdbiResult(meta: Option<RegexMatch>, ms: seq<RegexMatch>): ParserResult {
    var pairs := [("Account Name", IdbiAccountName(meta)), ("Account Number", IdbiAccountNumber(meta))];
    assert |pairs[0].0| != |pairs[1].0|;
    var fields: Fields := pairs;
    var rows := seq(|ms|, i requires 0 <= i < |ms| => IdbiRow(ms[i]));
    ParserResult(MetadataRows(fields) + [IdbiHeaders] + rows, fields)
  }

  /** The IDBI Bank Statement parser; a throwing match propagates. */
  function Idbi(engine: Engine, text: string, metaRx: Pattern, tableRx: Pattern): Attempt<ParserResult> {
    match engine.firstMatch(metaRx, text)
    case Threw => Threw
    case Done(meta) =>
      match engine.allMatches(tableRx, text)
      case Threw => Threw
      case Done(ms) => Done(IdbiResult(meta, ms))
  }

  /**
   * IDBI: exactly the two fields `Account Name` and `Account Number`, each
   * `N/A` when missing or empty (the name after trimming); every row is
   * seven wide, a `Dr.` amount carries a leading `-`, and amount and balance
   * have no commas.
   */
  lemma IdbiShape(meta: Option<RegexMatch>, ms: seq<RegexMatch>)
    ensures var r := IdbiResult(meta, ms);
      KeysOf(r.metadataFields) == ["Account Name", "Account Number"] &&
      (r.metadataFields[0].1 == "N/A" <==>
         (meta.None? || Trim(GroupText(meta.value, "Name")) == "" || Trim(GroupText(meta.value, "Name")) == "N/A")) &&
      (r.metadataFields[1].1 == "N/A" <==>
         (meta.None? || GroupText(meta.value, "AccNo") == "" || GroupText(meta.value, "AccNo") == "N/A")) &&
      |r.allRows| == 3 + |ms| && r.allRows[2] == IdbiHeaders &&
      (forall k :: 0 <= k < |r.allRows| ==> |r.allRows[k]| == Width) &&
      forall i :: 0 <= i < |ms| ==> r.allRows[3 + i] == IdbiRow(ms[i])
  {
    var r := IdbiResult(meta, ms);
    IdbiAccountFields(meta);
    assert KeysOf(r.metadataFields) == ["Account Name", "Account Number"];
    IdbiLayout(meta, ms);
  }

  /** The IDBI rows: two metadata rows, the headers, then one row per match, all seven wide. */
  lemma IdbiLayout(meta: Option<RegexMatch>, ms: seq<RegexMatch>)
    ensures var r := IdbiResult(meta, ms);
      |r.allRows| == 3 + |ms| && r.allRows[2] == IdbiHeaders &&
      (forall k :: 0 <= k < |r.allRows| ==> |r.allRows[k]| == Width) &&
      forall i :: 0 <= i < |ms| ==> r.allRows[3 + i] == IdbiRow(ms[i])
  {
    var r := IdbiResult(meta, ms);
    var head := MetadataRows(r.metadataFields);
    var rows := seq(|ms|, i requires 0 <= i < |ms| => IdbiRow(ms[i]));
    assert r.allRows == head + [IdbiHeaders] + rows;
    IdbiRowsWide(ms);
    forall k | 0 <= k < |r.allRows| ensures |r.allRows[k]| == Width {
      if k < 2 {
        assert r.allRows[k] == head[k];
      } else if k > 2 {
        assert r.allRows[k] == rows[k - 3];
      }
    }
  }

  /** Every IDBI data row is seven wide. */
  lemma IdbiRowsWide(ms: seq<RegexMatch>)
    ensures forall i :: 0 <= i < |ms| ==> |IdbiRow(ms[i])| == Width
  {
    forall i | 0 <= i < |ms| ensures |IdbiRow(ms[i])| == Width {
      IdbiRowShape(ms[i]);
    }
  }

  /** The account name and number fall back to `N/A` exactly when missing or empty. */
  lemma IdbiAccountFields(meta: Option<RegexMatch>)
    ensures IdbiAccountName(meta) == "N/A" <==>
      (meta.None? || Trim(GroupText(meta.value, "Name")) == "" || Trim(GroupText(meta.value, "Name")) == "N/A")
    ensures IdbiAccountNumber(meta) == "N/A" <==>
      (meta.None? || GroupText(meta.value, "AccNo") == "" || GroupText(meta.value, "AccNo") == "N/A")
  {
    if meta.Some? {
      var m := meta.value;
      var g: Option<Option<string>> := Lookup(m.groups, "Name");
      var h: Option<Option<string>> := Lookup(m.groups, "AccNo");
      if g.None? || g.value.None? {
        assert Trim(GroupText(m, "Name")) == Trim("");
      }
      if h.None? || h.value.None? {
        assert GroupText(m, "AccNo") == "";
      }
    }
  }

  /**
   * An IDBI row is seven wide; amount and balance lose their commas and a
   * `Dr.` amount is the negated amount.
   */
  lemma IdbiRowShape(m: RegexMatch)
    ensures var row := IdbiRow(m);
      |row| == Width && row[6] == "" && ',' !in row[3] && ',' !in row[5] &&
      row[5] == RemoveChar(GroupText(m, "Bal"), ',') &&
      (GroupText(m, "type") == "Dr." ==>
        row[3] == RemoveChar("-" + GroupText(m, "Amt"), ',') && row[3] != [] && row[3][0] == '-') &&
      (GroupText(m, "type") != "Dr." ==> row[3] == RemoveChar(GroupText(m, "Amt"), ','))
  {
    if GroupText(m, "type") == "Dr." {
      RemovePreservesHead("-" + GroupText(m, "Amt"), ',');
    }
  }

  /** Removing a character other than the first keeps the first in front. */
  lemma RemovePreservesHead(s: string, c: char)
    requires s != [] && s[0] != c
    ensures RemoveChar(s, c) != [] && RemoveChar(s, c)[0] == s[0]
  {
  }

  // ---------------------------------------------------------------------
  // The built-in parsers

  /** A pattern either already compiled (a literal) or still a source string. */
  datatype Rx = Literal(pattern: Pattern) | Source(source: string)

  /** Which `func` a parser runs; `General` is the default `generalDocumentParser`. */
  datatype ParserKind = General | GstChallanKind | IdbiKind

  /** `{ name, matches, metadata, table, func }`. */
  datatype Parser = Parser(name: string, keywords: seq<string>, metadata: Option<Rx>, table: Option<Rx>, kind: ParserKind)

  function Lit(source: string, flags: string): Option<Rx> {
    Some(Literal(Pattern(source, flags)))
  }

  /** `BUILT_IN_PARSERS`, in order. */
  const BuiltInParsers: seq<Parser> := [
    Parser("GST Challan", ["GOODS AND SERVICES TAX", "PAYMENT RECEIPT"],
      Lit(@"Date : (?<DepositDate>\d\d[\/-]\d\d[\/-]\d{4}) .* GSTIN: (?<GSTIN>.*?) .* Name:\s+(?<Name>.*?) Address.* \s+(?<StateName>[^\d]+?)\s+SGST", "s"),
      Lit(@"(?<name>\w+)\(.*?\)\s+(?<tax>-|\d+)\s+(?<interest>-|\d+)\s+(?<penalty>-|\d+)\s+(?<fees>-|\d+)\s+(?<others>-|\d+)\s+(?<total>-|\d+)\s+", "g"),
      GstChallanKind),
    Parser("GSTR-3B", ["Form GSTR-3B", "See rule 61(5)"],
      Lit(@"Year (?<Year>[\d-]+)\s+Period\s+(?<Period>.*)\s+GSTIN\s+of\s+the\s+supplier\s+(?<GSTIN>\w+)\s+2\(a\)\.\s+Legal\s+name\s+of\s+the\s+registered\s+person\s+(?<Name>.*)\s+2\(b\).*Date of ARN (?<ARN_Date>[\d\/]+)", ""),
      Lit(@"\([a-e]\s?\) (?<Particular>[A-Z].*?) (?<TaxableValue>\d+\.\d\d|-)\s+(?<IGST>\d+\.\d\d|-)\s+(?<CGST>\d+\.\d\d|-)\s+(?<SGST>\d+\.\d\d|-)\s+(?<Cess>\d+\.\d\d|-)\s+", "g"),
      General),
    Parser("TDS", ["INCOME TAX DEPARTMENT", "Challan Receipt"],
      Lit(@"Name : (?<Name>.*?)\s+Ass.* Nature of Payment : (?<SectionNo>\w+)\s+Amount \(in\s+Rs\.\) : " + "\U{20B9}" + @" (?<Amount>\d[\d,.]*).*(?<DepositDate>\d\d\-\s?\w{3}-\d{4})", ""),
      None,
      General),
    Parser("Union Bank Statement", ["Union Bank of India", "Statement of Account"],
      Lit(@"Statement of Account\s+(?<Account_Holder_Name>.*?)\s+.* Account No\s+(?<Account_Number>\d+)", "is"),
      Lit(@"(?<date>\d\d-\d\d-\d{4})\s+\d\d:\d\d:\d\d\s+(?<particulars>.*?)\s+(?<amt>[\d,]+\.\d\s?\d)\s+(?<bal>-?\s?[\d,]+\.\d\s?\d)", "g"),
      General),
    Parser("Canara Bank Statement", ["Canara Bank does not"],
      Lit(@"Account Number (?<Account_Number>\d+).* Opening Balance Rs\. (?<Opening_Balance>-?[\d,]+\.\d\d)\s+Closing Balance Rs\. (?<Closing_Balance>-?[\d,]+\.\d\d)", "s"),
      Lit(@"\s\s(?<date>\d\d-\d\d-\d{4})\s+\d\d:\d\d:\d\d\s+(?<particulars>.*?)\s+(?<amt>[\d+,]+\.\d\d)\s+(?<bal>-?[\d+,]+\.\d\d)", "g"),
      General),
    Parser("RBL Bank Statement", ["RBL BANK LTD"],
      Lit(@"Account Name: (?<Account_Name>.*?) Home Branch: .* in Account Number:\s+(?<Account_Number>\d+)\s+.* Opening Balance: " + "\U{20B9}" + @" (?<Opening_Balance>[\d,]+\.\d{2})\s+Count Of Debit: \d+\s+Closing Balance: " + "\U{20B9}" + @" (?<Closing_Balance>[\d,]+\.\d{2})", "s"),
      Lit(@"(?<date>\d\d\/\d\d\/\d{4})\s+\d\d\/\d\d\/\d{4}\s+(?<particular>.*?)\s+(?<amt>[\d,]+\.\s?\d\s?\d)\s+(?<bal>[\d,]+\s?\.\s?\d\s?\d)", "g"),
      General),
    Parser("IDBI Bank Statement", ["IDBI Bank or other authorities"],
      Lit(@"^(?<Name>.*?) Address .* A\/C NO: (?<AccNo>\d+)", "s"),
      Lit(@"(?<date>\d\d\/\d\d\/\d{4})\s+(?<particular>.*?)\s+(?<type>Dr\.|Cr\.)\s+\w{3}\s+(?<Amt>[\d,]+\.\d{2})\s+\d\d\/\d\d\/\d{4}\s+\d\d:\d\d:\d\d\s+(?<serialNo>\d+)\s+(?<Bal>-?[\d,]+\.\d{2})", "g"),
      IdbiKind),
    Parser("PNB", ["Stk Stmt: Stock Statement", "Trf: Transfer"],
      Lit(@"Account Number (?<AccountNumber>\d+).*?Account Name: (?<Name>.*?) Customer Address", ""),
      Lit(@"(?<TxnNo>[A-Z]{1}\d+) (?<date>\d\d\/\d\d\/\d{4}) (?<description>.*?) (?<Amt>-?\s?\d[\d,.\s]+\d) (?<bal>\d[\d,.\s]+\d) (?<Effect>Cr|Dr)", "g"),
      General),
    Parser("ICICI", ["PAN can be updated online or at the nearest ICICI Bank Branch ."],
      Lit(@"^.*?  (?<Name>.*?)  .* (?<OpeningDate>\d\d-\d\d-\d{4}) B\/F (?<OpeningBalance>[\d,.]+)", "s"),
      Lit(@"(?<Date>\d\d-\d\d-\d{4}) (?<Particular>.*?) (?<Amount>[\d,]+\.\d\d) (?<Balance>[\d,.]+) ", "g"),
      General),
    Parser("Professional Tax Challan", ["CHALLAN MTR Form Number-6"],
      Lit(@"Full Name (?<name>.*) Location.*From (?<period>.*) Flat.*TAX (?<amt>\d+\.\d{2}).*RBI Date (?<paymentDate>\d\d\/\d\d\/\d{4})", "s"),
      None,
      General),
    Parser("Provident Fund Challan Receipts", ["Payment Confirmation Receipt", "TRRN No"],
      Lit(@"ID : (?<Name>.*?) Establishment Name .*? (?<WageMonth>\w+-\d{2,4}) Wage Month : (?<Amt>\d[\d,.]*).*? (Payment|Realization|Payment Confirmation) Date : (?<PaymentDate>\d{2}-\w+-\d{4})", "s"),
      None,
      General),
    Parser("Provident Fund Challan",
      ["COMBINED CHALLAN OF A/C NO. 01, 02, 10, 21 & 22 (With EMPLOYEES' PROVIDENT FUND ORGANISATION"],
      Lit(@"(?<Month>\w+) (?<Year>\d{4}) (?<TRRN>\d{13}) (?<Name>.*) Total Subscribers .* (?<Amt>[\d,]+) Grand Total :", "s"),
      None,
      General)
  ]
}
