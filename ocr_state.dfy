/**
 * The state of the OCR tool: its reducer, and the first step of
 * `startProcessing`, which chooses the pages to recognise and either
 * reports an invalid selection or lists every chosen page as pending.
 */
module OcrState {
  import opened Common
  import opened PageRange

  datatype AppMode = Idle | Loaded | Processing | Completed

  datatype InputType = NoInput | PdfInput | ImagesInput

  /** A recognised word, carried through unchanged. */
  datatype Word = Word(text: string, x0: int, y0: int, x1: int, y1: int)

  datatype PageData = PageData(
    pageNum: int,
    status: string,
    text: string,
    words: seq<Word>,
    imgData: Option<string>,
    width: int,
    height: int)

  /** The `updates` of `UPDATE_PAGE_STATUS`: the fields given replace the page's. */
  datatype PageUpdate = PageUpdate(
    status: Option<string>,
    text: Option<string>,
    words: Option<seq<Word>>,
    imgData: Option<Option<string>>,
    width: Option<int>,
    height: Option<int>)

  datatype Progress = Progress(percent: int, text: string)

  datatype OcrApp = OcrApp(
    appMode: AppMode,
    processedPagesData: seq<PageData>,
    progress: Progress,
    inputType: InputType,
    maxPage: int,
    pageRangeError: bool)

  const InitialOcrApp := OcrApp(Idle, [], Progress(0, "Ready to upload file."), NoInput, 0, false)

  datatype OcrAction =
    | Reset
    | SetIdle
    | LoadStart(inputType: InputType, text: string)
    | LoadSuccess(maxPage: int, initialData: Option<seq<PageData>>, text: string)
    | LoadError(error: string)
    | StartProcessing(pages: seq<PageData>)
    | UpdatePageStatus(pageNum: int, updates: PageUpdate)
    | UpdateProgress(percent: int, text: string)
    | ProcessingComplete(text: string)
    | ProcessingError(error: string, isRangeError: Option<bool>)
    | SetPageRangeError(flag: bool)
    | UnknownOcrAction

  function Given<T>(o: Option<T>, current: T): T {
    if o.Some? then o.value else current
  }

  /** `{ ...p, ...updates }`. */
  function Apply(p: PageData, u: PageUpdate): PageData {
    p.(status := Given(u.status, p.status), text := Given(u.text, p.text), words := Given(u.words, p.words),
       imgData := Given(u.imgData, p.imgData), width := Given(u.width, p.width), height := Given(u.height, p.height))
  }

  /** `appReducer(state, action)` of the OCR tool. */
  function OcrReducer(s: OcrApp, a: OcrAction): OcrApp {
    match a
    case Reset => InitialOcrApp.(appMode := Processing)
    case SetIdle => s.(appMode := Idle)
    case LoadStart(inputType, text) =>
      s.(appMode := Processing, inputType := inputType, progress := Progress(0, text),
         processedPagesData := [], pageRangeError := false, maxPage := 0)
    case LoadSuccess(maxPage, initialData, text) =>
      s.(appMode := Loaded, maxPage := maxPage, processedPagesData := Given(initialData, []),
         progress := Progress(0, text))
    case LoadError(error) => s.(appMode := Idle, progress := Progress(0, error))
    case StartProcessing(initialData) =>
      s.(appMode := Processing, processedPagesData := initialData, pageRangeError := false,
         progress := Progress(0, "Preparing processing job..."))
    case UpdatePageStatus(pageNum, updates) =>
      s.(processedPagesData := seq(|s.processedPagesData|, i requires 0 <= i < |s.processedPagesData| =>
           if s.processedPagesData[i].pageNum == pageNum then Apply(s.processedPagesData[i], updates)
           else s.processedPagesData[i]))
    case UpdateProgress(percent, text) => s.(progress := Progress(percent, text))
    case ProcessingComplete(text) => s.(appMode := Completed, progress := Progress(100, text))
    case ProcessingError(error, isRangeError) =>
      s.(appMode := Loaded, pageRangeError := Given(isRangeError, false), progress := Progress(0, error))
    case SetPageRangeError(flag) => s.(pageRangeError := flag)
    case UnknownOcrAction => s
  }

  /**
   * `UPDATE_PAGE_STATUS` changes only the pages with the given number, each
   * to itself merged with the updates, keeps every page number, and leaves
   * every other field as it was.
   */
  lemma UpdatePageStatusMerges(s: OcrApp, n: int, u: PageUpdate)
    ensures var r := OcrReducer(s, UpdatePageStatus(n, u));
      r == s.(processedPagesData := r.processedPagesData) &&
      |r.processedPagesData| == |s.processedPagesData| &&
      forall i :: 0 <= i < |s.processedPagesData| ==>
        r.processedPagesData[i].pageNum == s.processedPagesData[i].pageNum &&
        (s.processedPagesData[i].pageNum == n ==> r.processedPagesData[i] == Apply(s.processedPagesData[i], u)) &&
        (s.processedPagesData[i].pageNum != n ==> r.processedPagesData[i] == s.processedPagesData[i])
  {
  }

  /** Sending the same page update twice is sending it once. */
  lemma UpdatePageStatusIdempotent(s: OcrApp, n: int, u: PageUpdate)
    ensures var once := OcrReducer(s, UpdatePageStatus(n, u));
      OcrReducer(once, UpdatePageStatus(n, u)) == once
  {
    var once := OcrReducer(s, UpdatePageStatus(n, u));
    var twice := OcrReducer(once, UpdatePageStatus(n, u));
    assert twice.processedPagesData == once.processedPagesData;
  }

  /**
   * `PROCESSING_ERROR` returns to the loaded file with no progress and the
   * error shown, flagging the range field only when the error says so.
   */
  lemma ProcessingErrorEffect(s: OcrApp, error: string, isRangeError: Option<bool>)
    ensures var r := OcrReducer(s, ProcessingError(error, isRangeError));
      r.appMode == Loaded && r.progress == Progress(0, error) &&
      (r.pageRangeError <==> isRangeError == Some(true)) &&
      r.processedPagesData == s.processedPagesData && r.inputType == s.inputType && r.maxPage == s.maxPage
  {
  }

  /** `PROCESSING_COMPLETE` marks the job done at 100 percent and keeps the pages. */
  lemma ProcessingCompleteEffect(s: OcrApp, text: string)
    ensures var r := OcrReducer(s, ProcessingComplete(text));
      r.appMode == Completed && r.progress == Progress(100, text) && r.processedPagesData == s.processedPagesData
  {
  }

  /** `RESET` forgets everything, whatever the state, and shows the processing mode. */
  lemma ResetForgets(s: OcrApp, t: OcrApp)
    ensures OcrReducer(s, Reset) == OcrReducer(t, Reset)
    ensures OcrReducer(s, Reset).appMode == Processing && OcrReducer(s, Reset).processedPagesData == []
  {
  }

  /** An action the reducer does not know changes nothing. */
  lemma UnknownKeepsState(s: OcrApp)
    ensures OcrReducer(s, UnknownOcrAction) == s
  {
  }

  // ---------------------------------------------------------------------
  // Choosing the pages

  const AllSelection := "all"

  /** `1, 2, ..., maxPage`. */
  function AllPages(maxPage: int): seq<int> {
    if maxPage <= 0 then [] else seq(maxPage, i requires 0 <= i < maxPage => i + 1)
  }

  /**
   * The pages `startProcessing` chooses, or `None` when it throws
   * "Invalid selection.": every page for "all", otherwise the page list of
   * the range text, which must name at least one page. Without an input
   * nothing is chosen.
   */
  function Chosen(inputType: InputType, selection: string, rangeInput: string, maxPage: int): Option<seq<int>> {
    if inputType == NoInput then Some([])
    else if selection == AllSelection then Some(AllPages(maxPage))
    else
      match PageList(rangeInput, maxPage)
      case None => None
      case Some(pages) => if pages == [] then None else Some(pages)
  }

  /**
   * The page selection of `startProcessing`; the PDF and image branches of
   * the source are the same code.
   */
  method SelectPages(inputType: InputType, selection: string, rangeInput: string, maxPage: int)
    returns (r: Option<seq<int>>)
    ensures r == Chosen(inputType, selection, rangeInput, maxPage)
  {
    if inputType == NoInput {
      return Some([]);
    }
    if selection == AllSelection {
      var pages: seq<int> := [];
      var i := 1;
      while i <= maxPage
        invariant 1 <= i <= (if maxPage >= 1 then maxPage + 1 else 1)
        invariant |pages| == i - 1 && forall j :: 0 <= j < |pages| ==> pages[j] == j + 1
      {
        pages := pages + [i];
        i := i + 1;
      }
      assert |pages| == |AllPages(maxPage)|;
      assert forall j :: 0 <= j < |pages| ==> pages[j] == AllPages(maxPage)[j];
      assert pages == AllPages(maxPage);
      return Some(pages);
    }
    var parsed := ParsePageRange(rangeInput, maxPage);
    if parsed.None? || |parsed.value| == 0 {
      return None;
    }
    r := parsed;
  }

  /**
   * A chosen selection is ascending, within `1..maxPage` and, when asked
   * for by a range, not empty; "all" chooses every page; a range is refused
   * exactly when it has a rejected part or names no page.
   */
  lemma ChosenShape(inputType: InputType, selection: string, rangeInput: string, maxPage: int)
    ensures var r := Chosen(inputType, selection, rangeInput, maxPage);
      (r.Some? ==> Ascending(r.value) && forall x :: x in r.value ==> 1 <= x <= maxPage) &&
      (inputType != NoInput && selection == AllSelection ==>
        r.Some? && |r.value| == (if maxPage <= 0 then 0 else maxPage) && forall j :: 0 <= j < |r.value| ==> r.value[j] == j + 1) &&
      (inputType != NoInput && selection != AllSelection ==>
        (r.None? <==> Rejected(Parts(rangeInput), maxPage) || PageList(rangeInput, maxPage) == Some([])))
  {
    if inputType != NoInput {
      if selection == AllSelection {
        AllPagesAscending(maxPage);
      } else {
        PageListShape(rangeInput, maxPage);
      }
    }
  }

  lemma AllPagesAscending(maxPage: int)
    ensures Ascending(AllPages(maxPage)) && forall x :: x in AllPages(maxPage) ==> 1 <= x <= maxPage
  {
  }

  /** A chosen page as it is listed before recognition starts. */
  function PendingPage(inputType: InputType, sourceImages: seq<string>, n: int): PageData {
    var img := if inputType == ImagesInput && 1 <= n <= |sourceImages| then Some(sourceImages[n - 1]) else None;
    PageData(n, "Pending...", "", [], img, 0, 0)
  }

  const InvalidSelectionError := "Error: Invalid selection."

  /**
   * `startProcessing` up to its first dispatch: nothing unless a file is
   * loaded; an invalid selection reports `PROCESSING_ERROR` flagged as a
   * range error; otherwise `START_PROCESSING` with the chosen pages pending.
   */
  function BeginJob(s: OcrApp, selection: string, rangeInput: string, sourceImages: seq<string>): OcrApp {
    if s.appMode != Loaded then s
    else
      match Chosen(s.inputType, selection, rangeInput, s.maxPage)
      case None => OcrReducer(s, ProcessingError(InvalidSelectionError, Some(true)))
      case Some(pages) =>
        OcrReducer(s, StartProcessing(seq(|pages|, i requires 0 <= i < |pages| => PendingPage(s.inputType, sourceImages, pages[i]))))
  }

  /**
   * Starting a job from a loaded file either flags the range with the
   * "Invalid selection." error and stays loaded, or lists one pending page
   * per chosen page, in order, and starts processing.
   */
  lemma BeginJobOutcome(s: OcrApp, selection: string, rangeInput: string, sourceImages: seq<string>)
    requires s.appMode == Loaded
    ensures var r := BeginJob(s, selection, rangeInput, sourceImages);
      var c := Chosen(s.inputType, selection, rangeInput, s.maxPage);
      (c.None? ==>
         (r.appMode == Loaded && r.pageRangeError && r.progress == Progress(0, InvalidSelectionError) &&
          r.processedPagesData == s.processedPagesData)) &&
      (c.Some? ==>
         (r.appMode == Processing && !r.pageRangeError && |r.processedPagesData| == |c.value| &&
          forall i :: 0 <= i < |c.value| ==>
            r.processedPagesData[i].pageNum == c.value[i] && r.processedPagesData[i].status == "Pending..."))
  {
  }
}
