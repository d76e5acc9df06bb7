/**
 * The state of the table extractor: its reducer, the actions one run of
 * `extractFromPdf` dispatches, and what the state holds after that run.
 */
module TableState {
  import opened Common
  import opened Text
  import opened TableRows

  /** A dropped PDF file, known by its name. */
  datatype FileRef = FileRef(name: string)

  datatype TableApp = TableApp(
    isProcessing: bool,
    processingStep: string,
    extractedData: seq<PageData>,
    error: Option<string>,
    lastFile: Option<FileRef>,
    triggerWord: string,
    rowLeniency: real,
    colLeniency: real,
    copyStatus: map<string, bool>,
    showManualSettings: bool,
    manualAnchors: seq<real>,
    showAllPages: bool,
    showPasswordModal: bool,
    showVisualModal: bool)

  const DefaultTrigger := "Date"
  const DefaultRowLeniency: real := 8.0
  const DefaultColLeniency: real := 45.0

  const InitialTableApp := TableApp(false, "", [], None, None, DefaultTrigger,
    DefaultRowLeniency, DefaultColLeniency, map[], false, [], false, false, false)

  /** The `{ key, value }` payloads of `SET_CONFIG` that the page dispatches. */
  datatype Setting =
    | TriggerWord(word: string)
    | RowLeniency(rows: real)
    | ColLeniency(cols: real)
    | ShowManualSettings(manual: bool)
    | ShowAllPages(all: bool)
    | ShowPasswordModal(modal: bool)

  datatype TableAction =
    | SetConfig(setting: Setting)
    | StartProcessing(file: Option<FileRef>)
    | SetStep(step: string)
    | AppendPageData(pageData: PageData, anchors: Option<seq<real>>)
    | FinishProcessing
    | SetError(message: string)
    | ShowPasswordPrompt
    | Reset
    | SetAnchors(newAnchors: seq<real>)
    | SetCopyStatus(status: map<string, bool>)
    | ToggleVisualModal(visible: bool)
    | UnknownTableAction

  function Configure(s: TableApp, c: Setting): TableApp {
    match c
    case TriggerWord(w) => s.(triggerWord := w)
    case RowLeniency(v) => s.(rowLeniency := v)
    case ColLeniency(v) => s.(colLeniency := v)
    case ShowManualSettings(b) => s.(showManualSettings := b)
    case ShowAllPages(b) => s.(showAllPages := b)
    case ShowPasswordModal(b) => s.(showPasswordModal := b)
  }

  const InitializingStep := "Initializing..."

  /** The reducer of the table extractor. */
  function TableReducer(s: TableApp, a: TableAction): TableApp {
    match a
    case SetConfig(c) => Configure(s, c)
    case StartProcessing(f) =>
      s.(isProcessing := true, processingStep := InitializingStep, error := None,
         lastFile := if f.Some? then f else s.lastFile, showPasswordModal := false)
    case SetStep(step) => s.(processingStep := step)
    case AppendPageData(p, anchors) =>
      if p.page == 1 then
        s.(extractedData := [p], manualAnchors := if anchors.Some? then anchors.value else s.manualAnchors)
      else s.(extractedData := s.extractedData + [p])
    case FinishProcessing => s.(isProcessing := false, processingStep := "")
    case SetError(m) => s.(isProcessing := false, error := Some(m))
    case ShowPasswordPrompt => s.(isProcessing := false, showPasswordModal := true)
    case Reset => InitialTableApp
    case SetAnchors(anchors) => s.(manualAnchors := anchors)
    case SetCopyStatus(status) => s.(copyStatus := s.copyStatus + status)
    case ToggleVisualModal(b) => s.(showVisualModal := b)
    case UnknownTableAction => s
  }

  /** The state after dispatching `actions` in order. */
  function Run(s: TableApp, actions: seq<TableAction>): TableApp
    decreases |actions|
  {
    if actions == [] then s else Run(TableReducer(s, actions[0]), actions[1..])
  }

  lemma {:induction false} RunConcat(s: TableApp, a: seq<TableAction>, b: seq<TableAction>)
    ensures Run(s, a + b) == Run(Run(s, a), b)
    decreases |a|
  {
    if a != [] {
      assert (a + b)[0] == a[0];
      assert (a + b)[1..] == a[1..] + b;
      RunConcat(TableReducer(s, a[0]), a[1..], b);
    } else {
      assert a + b == b;
    }
  }

  lemma RunOne(s: TableApp, x: TableAction)
    ensures Run(s, [x]) == TableReducer(s, x)
  {
    assert [x][1..] == [];
  }

  lemma RunTwo(s: TableApp, x: TableAction, y: TableAction)
    ensures Run(s, [x, y]) == TableReducer(TableReducer(s, x), y)
  {
    assert [x, y][1..] == [y];
    RunOne(TableReducer(s, x), y);
  }

  // ---------------------------------------------------------------------
  // Single actions

  /**
   * Page 1 starts the extracted data afresh and takes the anchors when
   * they are given; any other page is appended.
   */
  lemma AppendPageEffect(s: TableApp, p: PageData, anchors: Option<seq<real>>)
    ensures var t := TableReducer(s, AppendPageData(p, anchors));
      (p.page == 1 ==> t.extractedData == [p]) &&
      (p.page != 1 ==> t.extractedData == s.extractedData + [p] && t.manualAnchors == s.manualAnchors) &&
      (anchors.Some? && p.page == 1 ==> t.manualAnchors == anchors.value) &&
      (anchors.None? ==> t.manualAnchors == s.manualAnchors) &&
      t.isProcessing == s.isProcessing && t.error == s.error && t.lastFile == s.lastFile
  {
  }

  /**
   * Starting a run marks the page busy, clears the error, hides the
   * password dialog and remembers the file, keeping the previous one when
   * none is given; the extracted data stays until page 1 arrives.
   */
  lemma StartProcessingEffect(s: TableApp, f: Option<FileRef>)
    ensures var t := TableReducer(s, StartProcessing(f));
      t.isProcessing && t.processingStep == InitializingStep && t.error.None? &&
      !t.showPasswordModal && t.lastFile == (if f.Some? then f else s.lastFile) &&
      t.extractedData == s.extractedData && t.manualAnchors == s.manualAnchors
  {
  }

  /** Finishing, failing and asking for a password each end the busy state. */
  lemma StopsProcessing(s: TableApp, m: string)
    ensures !TableReducer(s, FinishProcessing).isProcessing && TableReducer(s, FinishProcessing).processingStep == ""
    ensures !TableReducer(s, SetError(m)).isProcessing && TableReducer(s, SetError(m)).error == Some(m)
    ensures !TableReducer(s, ShowPasswordPrompt).isProcessing && TableReducer(s, ShowPasswordPrompt).showPasswordModal
    ensures TableReducer(s, SetError(m)).extractedData == s.extractedData
    ensures TableReducer(s, ShowPasswordPrompt).extractedData == s.extractedData
  {
  }

  /** Reset forgets everything; an unknown action changes nothing. */
  lemma ResetAndUnknown(s: TableApp, t: TableApp)
    ensures TableReducer(s, Reset) == TableReducer(t, Reset) == InitialTableApp
    ensures TableReducer(s, UnknownTableAction) == s
    ensures InitialTableApp.triggerWord == "Date" && InitialTableApp.rowLeniency == 8.0 && InitialTableApp.colLeniency == 45.0
  {
  }

  /** A copy-status update wins on its own keys and keeps every other flag. */
  lemma CopyStatusMerge(s: TableApp, status: map<string, bool>)
    ensures var t := TableReducer(s, SetCopyStatus(status));
      t.copyStatus.Keys == s.copyStatus.Keys + status.Keys &&
      (forall k :: k in status ==> t.copyStatus[k] == status[k]) &&
      (forall k :: k in s.copyStatus && k !in status ==> t.copyStatus[k] == s.copyStatus[k])
  {
  }

  /** A setting changes its own field and nothing else. */
  lemma ConfigureOnlyThatField(s: TableApp, c: Setting)
    ensures var t := TableReducer(s, SetConfig(c));
      t.extractedData == s.extractedData && t.isProcessing == s.isProcessing &&
      t.manualAnchors == s.manualAnchors && t.copyStatus == s.copyStatus &&
      (c.TriggerWord? ==> t == s.(triggerWord := c.word)) &&
      (c.RowLeniency? ==> t == s.(rowLeniency := c.rows)) &&
      (c.ColLeniency? ==> t == s.(colLeniency := c.cols)) &&
      (c.ShowManualSettings? ==> t == s.(showManualSettings := c.manual)) &&
      (c.ShowAllPages? ==> t == s.(showAllPages := c.all)) &&
      (c.ShowPasswordModal? ==> t == s.(showPasswordModal := c.modal))
  {
  }

  // ---------------------------------------------------------------------
  // One run of extractFromPdf

  /** How opening the PDF ends: its pages' text items, or an exception. */
  datatype Opening =
    | Opened(pageItems: seq<seq<Item>>)
    | PasswordException
    | OtherError(message: string)
    | NotAnError

  const AutoDetectStep := "Auto-detecting columns..."

  function ReadingStep(i: nat, n: nat): string {
    "Reading Page " + NatToString(i) + "/" + NatToString(n) + "..."
  }

  /** The anchors asked for: those given, else the manual ones in manual mode. */
  function AnchorsToUse(provided: Option<seq<real>>, s: TableApp): Option<seq<real>> {
    if provided.None? && s.showManualSettings then Some(s.manualAnchors) else provided
  }

  /** Whether the columns are detected automatically. */
  predicate AutoDetects(provided: Option<seq<real>>, s: TableApp) {
    var use := AnchorsToUse(provided, s);
    (use.None? || |use.value| == 0) && !s.showManualSettings
  }

  /**
   * The anchors a run buckets by; `detected` is what the column clustering
   * of page 1 would give.
   */
  function AnchorsUsed(provided: Option<seq<real>>, s: TableApp, detected: seq<real>): seq<real> {
    if AutoDetects(provided, s) then detected
    else var use := AnchorsToUse(provided, s); if use.Some? then use.value else []
  }

  /** The record of page `page` (counted from 1) holding `items`. */
  function PageRecord(page: nat, items: seq<Item>, s: TableApp, anchors: seq<real>): PageData {
    PageData(page, PageRows(items, s.rowLeniency, s.triggerWord, anchors))
  }

  /** The page records, numbered from 1. */
  function PagesRead(pageItems: seq<seq<Item>>, s: TableApp, anchors: seq<real>): (r: seq<PageData>)
    ensures |r| == |pageItems|
    ensures forall k :: 0 <= k < |r| ==>
      r[k].page == k + 1 && r[k].rows == PageRows(pageItems[k], s.rowLeniency, s.triggerWord, anchors)
  {
    seq(|pageItems|, k requires 0 <= k < |pageItems| => PageRecord(k + 1, pageItems[k], s, anchors))
  }

  /** For every page: its step message, then its record. */
  function PageActions(pages: seq<PageData>, n: nat, anchors: seq<real>): seq<TableAction>
    decreases |pages|
  {
    if pages == [] then []
    else PageHead(pages[0], n, anchors) + PageActions(pages[1..], n, anchors)
  }

  /** The two actions for one page; only page 1 carries the anchors. */
  function PageHead(p: PageData, n: nat, anchors: seq<real>): seq<TableAction> {
    [SetStep(ReadingStep(if p.page >= 0 then p.page else 0, n)),
     AppendPageData(p, if p.page == 1 then Some(anchors) else None)]
  }

  lemma PageStep(s: TableApp, pages: seq<PageData>, n: nat, anchors: seq<real>)
    requires pages != []
    ensures Run(s, PageActions(pages, n, anchors))
      == Run(TableReducer(TableReducer(s, PageHead(pages[0], n, anchors)[0]), PageHead(pages[0], n, anchors)[1]),
             PageActions(pages[1..], n, anchors))
  {
    var head := PageHead(pages[0], n, anchors);
    RunConcat(s, head, PageActions(pages[1..], n, anchors));
    RunTwo(s, head[0], head[1]);
  }

  /** The step message announcing column detection, when columns are detected. */
  function AutoStep(provided: Option<seq<real>>, s: TableApp): seq<TableAction> {
    if AutoDetects(provided, s) then [SetStep(AutoDetectStep)] else []
  }

  /**
   * The actions one call of `extractFromPdf(file, provided)` dispatches,
   * with `s` the state the call sees.
   */
  function Dispatched(s: TableApp, file: Option<FileRef>, provided: Option<seq<real>>,
                      opening: Opening, detected: seq<real>): seq<TableAction>
  {
    if file.None? then []
    else
      match opening
      case Opened(items) =>
        var anchors := AnchorsUsed(provided, s, detected);
        [StartProcessing(file)] + AutoStep(provided, s)
        + PageActions(PagesRead(items, s, anchors), |items|, anchors)
        + [FinishProcessing]
      case PasswordException => [StartProcessing(file), ShowPasswordPrompt]
      case OtherError(m) => [StartProcessing(file), SetError(m)]
      case NotAnError => [StartProcessing(file)]
  }

  /** "Re-parse" runs again on the last file with the manual anchors. */
  function Reparse(s: TableApp, opening: Opening, detected: seq<real>): seq<TableAction> {
    Dispatched(s, s.lastFile, Some(s.manualAnchors), opening, detected)
  }

  predicate Numbered(pages: seq<PageData>) {
    forall k :: 0 <= k < |pages| ==> pages[k].page == k + 1
  }

  predicate Manual(s: TableApp, t: TableApp) {
    t.isProcessing == s.isProcessing && t.error == s.error && t.lastFile == s.lastFile &&
    t.showPasswordModal == s.showPasswordModal && t.triggerWord == s.triggerWord &&
    t.rowLeniency == s.rowLeniency && t.showManualSettings == s.showManualSettings
  }

  /** Pages other than the first are appended in order. */
  lemma {:induction false} AppendLater(s: TableApp, pages: seq<PageData>, n: nat, anchors: seq<real>)
    requires forall k :: 0 <= k < |pages| ==> pages[k].page != 1
    ensures var t := Run(s, PageActions(pages, n, anchors));
      t.extractedData == s.extractedData + pages && t.manualAnchors == s.manualAnchors && Manual(s, t)
    decreases |pages|
  {
    if pages != [] {
      var p := pages[0];
      var head := PageHead(p, n, anchors);
      PageStep(s, pages, n, anchors);
      var u := TableReducer(TableReducer(s, head[0]), head[1]);
      assert u.extractedData == s.extractedData + [p];
      AppendLater(u, pages[1..], n, anchors);
      assert s.extractedData + [p] + pages[1..] == s.extractedData + pages;
    }
  }

  /**
   * Pages numbered from 1 replace the extracted data with exactly those
   * pages, and page 1 installs the anchors.
   */
  lemma AppendAll(s: TableApp, pages: seq<PageData>, n: nat, anchors: seq<real>)
    requires Numbered(pages)
    ensures var t := Run(s, PageActions(pages, n, anchors));
      Manual(s, t) &&
      (pages != [] ==> t.extractedData == pages && t.manualAnchors == anchors) &&
      (pages == [] ==> t == s)
  {
    if pages != [] {
      var p := pages[0];
      var head := PageHead(p, n, anchors);
      PageStep(s, pages, n, anchors);
      var u := TableReducer(TableReducer(s, head[0]), head[1]);
      assert forall k :: 0 <= k < |pages[1..]| ==> pages[1..][k].page == k + 2;
      AppendLater(u, pages[1..], n, anchors);
      assert [p] + pages[1..] == pages;
    }
  }

  /** Finishing after the page actions: idle, with the pages read and their anchors when there were pages. */
  lemma FinishedRun(u: TableApp, pages: seq<PageData>, n: nat, anchors: seq<real>)
    requires Numbered(pages)
    ensures var t := TableReducer(Run(u, PageActions(pages, n, anchors)), FinishProcessing);
      !t.isProcessing && t.processingStep == "" && t.error == u.error &&
      t.lastFile == u.lastFile && t.showPasswordModal == u.showPasswordModal &&
      (pages != [] ==> t.extractedData == pages && t.manualAnchors == anchors) &&
      (pages == [] ==> t.extractedData == u.extractedData)
  {
    AppendAll(u, pages, n, anchors);
    var v := Run(u, PageActions(pages, n, anchors));
    var t := TableReducer(v, FinishProcessing);
    assert t.extractedData == v.extractedData && t.manualAnchors == v.manualAnchors;
    assert t.error == v.error && t.lastFile == v.lastFile && t.showPasswordModal == v.showPasswordModal;
  }

  /** A run that opens the PDF ends idle with no error and remembers the file. */
  lemma ExtractionEnds(s: TableApp, file: FileRef, provided: Option<seq<real>>,
                       items: seq<seq<Item>>, detected: seq<real>)
    ensures var t := Run(s, Dispatched(s, Some(file), provided, Opened(items), detected));
      !t.isProcessing && t.processingStep == "" && t.error.None? &&
      t.lastFile == Some(file) && !t.showPasswordModal
  {
    var anchors := AnchorsUsed(provided, s, detected);
    var pages := PagesRead(items, s, anchors);
    OpenedRun(s, file, provided, items, detected);
    FinishedRun(Prepared(s, file, provided), pages, |items|, anchors);
  }

  /**
   * A run that opens the PDF holds one record per page, numbered from 1,
   * each the rows of that page's items (the contract of `PagesRead`), and
   * the anchors used become the
   * manual anchors; a PDF with no pages leaves the previous records in
   * place.
   */
  lemma ExtractionRecords(s: TableApp, file: FileRef, provided: Option<seq<real>>,
                          items: seq<seq<Item>>, detected: seq<real>)
    ensures var t := Run(s, Dispatched(s, Some(file), provided, Opened(items), detected));
      var anchors := AnchorsUsed(provided, s, detected);
      (items != [] ==> t.extractedData == PagesRead(items, s, anchors) && t.manualAnchors == anchors) &&
      (items == [] ==> t.extractedData == s.extractedData)
  {
    var anchors := AnchorsUsed(provided, s, detected);
    var pages := PagesRead(items, s, anchors);
    OpenedRun(s, file, provided, items, detected);
    FinishedRun(Prepared(s, file, provided), pages, |items|, anchors);
  }

  /** The state once a run has started and, when needed, announced column detection. */
  function Prepared(s: TableApp, file: FileRef, provided: Option<seq<real>>): (u: TableApp)
    ensures u.lastFile == Some(file) && u.error.None? && !u.showPasswordModal && u.isProcessing
    ensures u.extractedData == s.extractedData && u.rowLeniency == s.rowLeniency && u.triggerWord == s.triggerWord
  {
    var started := TableReducer(s, StartProcessing(Some(file)));
    if AutoDetects(provided, s) then TableReducer(started, SetStep(AutoDetectStep)) else started
  }

  lemma OpenedRun(s: TableApp, file: FileRef, provided: Option<seq<real>>,
                  items: seq<seq<Item>>, detected: seq<real>)
    ensures var anchors := AnchorsUsed(provided, s, detected);
      Run(s, Dispatched(s, Some(file), provided, Opened(items), detected))
      == TableReducer(Run(Prepared(s, file, provided), PageActions(PagesRead(items, s, anchors), |items|, anchors)), FinishProcessing)
  {
    var anchors := AnchorsUsed(provided, s, detected);
    var auto := AutoStep(provided, s);
    var acts := PageActions(PagesRead(items, s, anchors), |items|, anchors);
    var st := [StartProcessing(Some(file))];
    assert Dispatched(s, Some(file), provided, Opened(items), detected) == st + auto + acts + [FinishProcessing];
    RunConcat(s, st + auto + acts, [FinishProcessing]);
    RunConcat(s, st + auto, acts);
    RunConcat(s, st, auto);
    RunOne(s, st[0]);
    if auto != [] {
      RunOne(Run(s, st), auto[0]);
    }
    RunOne(Run(s, st + auto + acts), FinishProcessing);
  }

  /**
   * A run whose PDF needs a password ends idle with the password dialog
   * shown; any other error is reported; a thrown non-error leaves the page
   * busy. None of them touches the extracted data.
   */
  lemma FailedExtraction(s: TableApp, file: FileRef, provided: Option<seq<real>>, m: string, detected: seq<real>)
    ensures var t := Run(s, Dispatched(s, Some(file), provided, PasswordException, detected));
      !t.isProcessing && t.showPasswordModal && t.error.None? && t.extractedData == s.extractedData
    ensures var t := Run(s, Dispatched(s, Some(file), provided, OtherError(m), detected));
      !t.isProcessing && t.error == Some(m) && !t.showPasswordModal && t.extractedData == s.extractedData
    ensures var t := Run(s, Dispatched(s, Some(file), provided, NotAnError, detected));
      t.isProcessing && t.error.None? && t.extractedData == s.extractedData
  {
    var st := StartProcessing(Some(file));
    var u := TableReducer(s, st);
    assert u.extractedData == s.extractedData;
    assert Dispatched(s, Some(file), provided, PasswordException, detected) == [st, ShowPasswordPrompt];
    RunTwo(s, st, ShowPasswordPrompt);
    assert Dispatched(s, Some(file), provided, OtherError(m), detected) == [st, SetError(m)];
    RunTwo(s, st, SetError(m));
    assert Dispatched(s, Some(file), provided, NotAnError, detected) == [st];
    RunOne(s, st);
  }

  /** Without a file nothing is dispatched. */
  lemma NoFileNoAction(s: TableApp, provided: Option<seq<real>>, opening: Opening, detected: seq<real>)
    ensures Dispatched(s, None, provided, opening, detected) == []
    ensures s.lastFile.None? ==> Run(s, Reparse(s, opening, detected)) == s
  {
  }

  /**
   * Columns are detected only outside manual mode when no anchors are
   * given; otherwise the given anchors, or the manual ones, are used.
   */
  lemma AnchorChoice(provided: Option<seq<real>>, s: TableApp, detected: seq<real>)
    ensures AutoDetects(provided, s) <==>
      !s.showManualSettings && (provided.None? || |provided.value| == 0)
    ensures s.showManualSettings && provided.None? ==> AnchorsUsed(provided, s, detected) == s.manualAnchors
    ensures provided.Some? && (|provided.value| > 0 || s.showManualSettings) ==>
      AnchorsUsed(provided, s, detected) == provided.value
  {
  }

  /** Re-parsing buckets by the manual anchors unless there are none outside manual mode. */
  lemma ReparseAnchors(s: TableApp, detected: seq<real>)
    ensures |s.manualAnchors| > 0 || s.showManualSettings ==>
      AnchorsUsed(Some(s.manualAnchors), s, detected) == s.manualAnchors
    ensures |s.manualAnchors| == 0 && !s.showManualSettings ==>
      AnchorsUsed(Some(s.manualAnchors), s, detected) == detected
  {
  }

  // ---------------------------------------------------------------------
  // Copying

  /**
   * After copying, the "all" flag is up until the timer lowers it again;
   * the other flags are untouched.
   */
  lemma CopyFlag(s: TableApp)
    ensures var up := TableReducer(s, SetCopyStatus(map["all" := true]));
      var down := TableReducer(up, SetCopyStatus(map["all" := false]));
      up.copyStatus["all"] && !down.copyStatus["all"] &&
      (forall k :: k in s.copyStatus && k != "all" ==> k in down.copyStatus && down.copyStatus[k] == s.copyStatus[k])
  {
  }
}
