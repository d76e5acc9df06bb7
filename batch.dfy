/**
 * What the file processor does, as functions of its state: the records one
 * file contributes, one step of the batch, the run to completion or to a
 * password prompt, and the effect of `start`, of submitting a password and
 * of skipping a file. The PDF reader and the regular-expression engine are
 * parameters (`Env`).
 */
module Batch {
  import opened Common
  import opened Text
  import opened Patterns
  import opened DataExtractor
  import opened Classifier
  import opened AppStore

  /** How `extractAllPdfText(file, password)` settles: the page texts, or the error it caught. */
  datatype Extraction = Extracted(text: string) | Failed(errorName: string, errorMessage: string)

  /** An error the reader reports as `PasswordRequiredError`. */
  predicate IsPasswordFailure(errorName: string, errorMessage: string) {
    errorName == "PasswordException" || Contains(errorMessage, "password")
  }

  /** The foreign parts: the regular-expression engine and the PDF text reader. */
  datatype Env = Env(engine: Engine, extract: (PdfFile, string) -> Extraction)

  /** How `processFileContent` ends: normally, with a password error, or with any other error. */
  datatype Thrown = NoThrow | PasswordThrow | OtherThrow

  /** The records one file adds to `tempDocuments` and `tempMetadata`, and how the call ended. */
  datatype Outcome = Outcome(docs: seq<DocRecord>, metas: seq<MetadataRecord>, thrown: Thrown)

  const OneShotMode := "one-shot"
  const OneShotType := "One-shot Regex"
  const PdfType := "application/pdf"

  /** The settings `start` hands the processor: the parser list, the chosen parser and the one-shot pattern. */
  datatype Settings = Settings(allParsers: seq<Parser>, selectedParser: string, oneShotRegex: string, oneShotGlobal: bool)

  /** The processor's fields and the application state its `dispatchApp` updates. */
  datatype Proc = Proc(
    fileList: seq<PdfFile>,
    currentIndex: nat,
    tempDocuments: seq<DocRecord>,
    tempMetadata: seq<MetadataRecord>,
    successCount: nat,
    settings: Settings,
    savedPassword: string,
    app: AppState)

  const InitialSettings := Settings([], AutoMode, "", false)

  /** `reset()`: every processor field back to its initial value. */
  function Reset(p: Proc): Proc {
    Proc([], 0, [], [], 0, InitialSettings, "", p.app)
  }

  // ---------------------------------------------------------------------
  // One file

  /** `Group ${i + 1}`. */
  function GroupName(i: nat): string {
    "Group " + NatToString(i + 1)
  }

  lemma GroupNamesDistinct(n: nat)
    ensures forall i, j :: 0 <= i < j < n ==> GroupName(i) != GroupName(j)
  {
    forall i, j | 0 <= i < j < n ensures GroupName(i) != GroupName(j) {
      if GroupName(i) == GroupName(j) {
        PrefixCancel("Group ", NatToString(i + 1), NatToString(j + 1));
        NatToStringInjective(i + 1, j + 1);
      }
    }
  }

  /** The positional groups as fields `Group 1`, `Group 2`, ..., each trimmed or `""`. */
  function PositionalFields(captures: seq<Option<string>>): (r: Fields)
    ensures |r| == |captures|
    ensures forall i :: 0 <= i < |r| ==> r[i] == (GroupName(i), MetaValue(captures[i]))
  {
    GroupNamesDistinct(|captures|);
    seq(|captures|, i requires 0 <= i < |captures| => (GroupName(i), MetaValue(captures[i])))
  }

  /** `Group ${i + 1}` looks up capture `i`, for every capture, and no other key is present. */
  lemma PositionalFinds(captures: seq<Option<string>>)
    ensures forall i :: 0 <= i < |captures| ==> Lookup(PositionalFields(captures), GroupName(i)) == Some(MetaValue(captures[i]))
    ensures forall k :: Lookup(PositionalFields(captures), k).Some? ==> exists i :: 0 <= i < |captures| && k == GroupName(i)
  {
    var r := PositionalFields(captures);
    forall i | 0 <= i < |captures| ensures Lookup(r, GroupName(i)) == Some(MetaValue(captures[i])) {
      LookupAt(r, i);
    }
    forall k | Lookup(r, k).Some? ensures exists i :: 0 <= i < |captures| && k == GroupName(i) {
      LookupFinds(r, k);
    }
  }

  /** The fields one global one-shot match records: its named groups, else its positional groups, else the match. */
  function OneShotFields(m: RegexMatch): Fields {
    if |m.groups| > 0 then MapGroups(m.groups, RawValue)
    else if |m.captures| > 0 then PositionalFields(m.captures)
    else [("Match", MetaValue(Some(m.whole)))]
  }

  function OneShotRecord(file: PdfFile, m: RegexMatch): MetadataRecord {
    MetadataRecord(file.name, OneShotType, OneShotFields(m))
  }

  /** The record pushed for a file no parser claims. */
  function FailedRecord(file: PdfFile, raw: string): DocRecord {
    DocRecord(file.name, "FAILED", [], [], [], "Error: Document type unknown. Data not extracted.", raw, "error")
  }

  /** The record pushed for a file the user skips. */
  function SkippedRecord(name: string): DocRecord {
    DocRecord(name, "SKIPPED", [], [], [], "Skipped by user.", "", "skipped")
  }

  /**
   * The `parserFound` branch: a metadata record when there are fields, and
   * a success record whose header is the row after the metadata rows and
   * whose data rows are the rest. `prior` are the metadata records already
   * pushed for the file.
   */
  function Success(file: PdfFile, docType: string, raw: string, pr: ParserResult, prior: seq<MetadataRecord>): Outcome {
    var mc := |pr.metadataFields|;
    var header := if |pr.allRows| > mc then pr.allRows[mc] else [];
    var data := if |pr.allRows| > mc + 1 then pr.allRows[mc + 1..] else [];
    var metas := if mc > 0 then [MetadataRecord(file.name, docType, pr.metadataFields)] else [];
    Outcome([DocRecord(file.name, docType, pr.metadataFields, header, data, "", raw, "success")], prior + metas, NoThrow)
  }

  /** The one-shot branch on the text `raw`. */
  function OneShot(engine: Engine, p: Settings, file: PdfFile, raw: string): Outcome {
    if Trim(p.oneShotRegex) == "" then Outcome([], [], OtherThrow)
    else if p.oneShotGlobal then GlobalOneShot(engine, file, raw, Pattern(p.oneShotRegex, "g"))
    else SingleOneShot(engine, file, raw, Pattern(p.oneShotRegex, "s"))
  }

  /** A global one-shot pattern `rx`: a metadata record per match, then the table of all matches. */
  function GlobalOneShot(engine: Engine, file: PdfFile, raw: string, rx: Pattern): Outcome {
    if !Compiles(engine, rx) then Outcome([], [], OtherThrow)
    else
      match engine.allMatches(rx, raw)
      case Threw => Outcome([], [], OtherThrow)
      case Done(ms) =>
        var prior := seq(|ms|, i requires 0 <= i < |ms| => OneShotRecord(file, ms[i]));
        Success(file, OneShotType, raw, GeneralSpec(engine, raw, None, Some(rx)), prior)
  }

  /** A single-match one-shot pattern `rx`: its groups split into metadata and table. */
  function SingleOneShot(engine: Engine, file: PdfFile, raw: string, rx: Pattern): Outcome {
    if !Compiles(engine, rx) then Outcome([], [], OtherThrow)
    else Success(file, OneShotType, raw, GeneralSpec(engine, raw, Some(rx), None), [])
  }

  /** The classified branch on the text `raw`. */
  function Classified(engine: Engine, p: Settings, file: PdfFile, raw: string): Outcome {
    match FirstClaim(p.allParsers, p.selectedParser, CollapseWhitespace(raw))
    case None => Outcome([FailedRecord(file, raw)], [], OtherThrow)
    case Some(k) =>
      var parser := p.allParsers[k];
      match RunParser(engine, parser, raw)
      case Threw => Outcome([], [], OtherThrow)
      case Done(pr) => Success(file, parser.name, raw, pr, [])
  }

  /** `processFileContent(file, password)` with the processor's settings `p`. */
  function Content(env: Env, p: Settings, file: PdfFile, password: string): Outcome {
    match env.extract(file, password)
    case Failed(n, m) => Outcome([], [], if IsPasswordFailure(n, m) then PasswordThrow else OtherThrow)
    case Extracted(t) =>
      var raw := CollapseTripleSpaces(t);
      if p.selectedParser == OneShotMode then OneShot(env.engine, p, file, raw)
      else Classified(env.engine, p, file, raw)
  }

  /** `p` with a file's records pushed. */
  function Absorb(p: Proc, o: Outcome): Proc {
    p.(tempDocuments := p.tempDocuments + o.docs, tempMetadata := p.tempMetadata + o.metas)
  }

  // ---------------------------------------------------------------------
  // The batch

  function ProgressStatus(i: nat, n: nat, name: string): Status {
    Status("Processing " + NatToString(i + 1) + " of " + NatToString(n) + ": " + name + "...", "info")
  }

  /** The `UPDATE_PASSWORD_MODAL` payload that asks for the password of `file`. */
  function AskPassword(file: PdfFile, input: string): ModalPatch {
    ModalPatch(Some(true), Some(file.name), Some(input), None, Some(Some(file)))
  }

  datatype Next = Continue(state: Proc) | Suspend(state: Proc)

  /** True when `q` differs from `p` at most in the records, the index, the count and the application state. */
  predicate SameBatch(p: Proc, q: Proc) {
    q.fileList == p.fileList && q.settings == p.settings && q.savedPassword == p.savedPassword
  }

  /** Passing the current file, counting it when it was read and parsed. */
  function Pass(p: Proc, counted: bool): Proc {
    p.(successCount := p.successCount + (if counted then 1 else 0), currentIndex := p.currentIndex + 1)
  }

  /**
   * One pass of `processNextFile` for the file at `currentIndex`: a file
   * read and parsed is counted and passed; a password error stops at the
   * file without passing it; any other error passes it uncounted.
   */
  function Step(env: Env, p: Proc): (r: Next)
    requires p.currentIndex < |p.fileList|
    ensures SameBatch(p, r.state)
    ensures var o := Content(env, p.settings, p.fileList[p.currentIndex], p.savedPassword);
      r.state.tempDocuments == p.tempDocuments + o.docs && r.state.tempMetadata == p.tempMetadata + o.metas &&
      (r.Suspend? <==> o.thrown == PasswordThrow) &&
      r.state.currentIndex == p.currentIndex + (if r.Suspend? then 0 else 1) &&
      r.state.successCount == p.successCount + (if o.thrown == NoThrow then 1 else 0)
  {
    Passed(p, Content(env, p.settings, p.fileList[p.currentIndex], p.savedPassword))
  }

  /** The pass of `processNextFile` once reading the current file ended with `o`. */
  function Passed(p: Proc, o: Outcome): Next
    requires p.currentIndex < |p.fileList|
  {
    var file := p.fileList[p.currentIndex];
    var q := p.(app := AppReducer(p.app, SetStatus(ProgressStatus(p.currentIndex, |p.fileList|, file.name))));
    var r := Absorb(q, o);
    match o.thrown
    case NoThrow => Continue(Pass(r, true))
    case PasswordThrow => Suspend(r.(app := AppReducer(r.app, UpdatePasswordModal(AskPassword(file, "")))))
    case OtherThrow => Continue(Pass(r, false))
  }

  /** The status `finalize` publishes. */
  function Summary(p: Proc): Status {
    if p.tempDocuments == [] && p.tempMetadata == [] then Status("Processed files but found no recognized data.", "info")
    else Status("Successfully processed " + NatToString(p.successCount) + " of " + NatToString(|p.fileList|) + " files!", "success")
  }

  /** `finalize()`: publish the records with the summary status. */
  function Finalize(p: Proc): Proc {
    p.(app := AppReducer(p.app, FinalizeProcessing(p.tempDocuments, p.tempMetadata, Summary(p))))
  }

  /** `processNextFile()` and the calls it makes of itself: run to the end or to a password prompt. */
  function Run(env: Env, p: Proc): Proc
    decreases |p.fileList| - p.currentIndex
  {
    if p.currentIndex >= |p.fileList| then Finalize(p)
    else
      match Step(env, p)
      case Continue(q) => Run(env, q)
      case Suspend(q) => q
  }

  /** `Array.from(fileList).filter(f => f.type === "application/pdf")`. */
  function Pdfs(files: seq<PdfFile>): (r: seq<PdfFile>)
    ensures |r| <= |files|
    ensures forall f :: f in r <==> f in files && f.mimeType == PdfType
  {
    if files == [] then []
    else
      var rest := Pdfs(files[..|files| - 1]);
      var last := files[|files| - 1];
      assert files == files[..|files| - 1] + [last];
      if last.mimeType == PdfType then rest + [last] else rest
  }

  /** The filter keeps the order and the multiplicity of the files: it distributes over concatenation. */
  lemma {:induction false} PdfsAppend(a: seq<PdfFile>, b: seq<PdfFile>)
    ensures Pdfs(a + b) == Pdfs(a) + Pdfs(b)
    decreases |b|
  {
    if b == [] {
      assert a + b == a;
    } else {
      var init := b[..|b| - 1];
      assert (a + b)[..|a + b| - 1] == a + init;
      assert (a + b)[|a + b| - 1] == b[|b| - 1];
      PdfsAppend(a, init);
    }
  }

  /** A single file is kept exactly when it is a PDF. */
  lemma PdfsOne(f: PdfFile)
    ensures Pdfs([f]) == if f.mimeType == PdfType then [f] else []
  {
    assert [f][..0] == [];
  }

  /** The two dispatches of `start` before the first file: `START_FILE_PROCESSING`, and the consolidated view in one-shot mode. */
  function Opened(a: AppState, selected: string): AppState {
    var b := AppReducer(a, StartFileProcessing);
    if selected == OneShotMode then AppReducer(b, SetIsConsolidatedVisible(true)) else b
  }

  /** The processor after `reset()` and the assignments of `start`. */
  function Begun(p: Proc, pdfs: seq<PdfFile>, s: Settings, saved: string): Proc {
    Reset(p).(fileList := pdfs, settings := s, savedPassword := saved, app := Opened(p.app, s.selectedParser))
  }

  /** `start(fileList, allParsers, selectedParser, savedPassword, oneShotRegex, oneShotGlobal)`. */
  function Start(env: Env, p: Proc, files: seq<PdfFile>, s: Settings, saved: string): Proc {
    var pdfs := Pdfs(files);
    if |files| == 0 || |pdfs| == 0 then
      p.(app := AppReducer(AppReducer(p.app, SetIsResultVisible(false)), SetStatus(BlankStatus)))
    else Run(env, Begun(p, pdfs, s, saved))
  }

  const EnterPasswordStatus := Status("Please enter a password.", "error")
  const WrongPasswordStatus := Status("Incorrect password. Please try again.", "error")

  /** The dispatches that close the modal, publish the saved password and clear the status. */
  function ClosePrompt(a: AppState, saved: string): AppState {
    AppReducer(AppReducer(AppReducer(a, SetPasswordModal(InitialModal)), SetSavedPassword(saved)), SetStatus(BlankStatus))
  }

  /** The dispatches after a rejected password: the error status, and the modal reopened with the password typed. */
  function Reprompt(a: AppState, file: PdfFile, password: string): AppState {
    AppReducer(AppReducer(a, SetStatus(WrongPasswordStatus)), UpdatePasswordModal(AskPassword(file, password)))
  }

  /** Reading `file` again with `password` and going on as `handlePasswordSubmit` does. */
  function Retry(env: Env, q: Proc, file: PdfFile, password: string): Proc {
    Retried(env, q, file, password, Content(env, q.settings, file, password))
  }

  /** The rest of the retry once `processFileContent` ended with `o`. */
  function Retried(env: Env, q: Proc, file: PdfFile, password: string, o: Outcome): Proc {
    var r := Absorb(q, o);
    match o.thrown
    case NoThrow => Run(env, Pass(r, true))
    case PasswordThrow => r.(app := Reprompt(r.app, file, password))
    case OtherThrow => Run(env, Pass(r, false))
  }

  /** `handlePasswordSubmit(file, password, useSubsequent)`. */
  function Submit(env: Env, p: Proc, file: PdfFile, password: string, useSubsequent: bool): Proc {
    if |password| == 0 then p.(app := AppReducer(p.app, SetStatus(EnterPasswordStatus)))
    else
      var saved := if useSubsequent then password else "";
      Retry(env, p.(savedPassword := saved, app := ClosePrompt(p.app, saved)), file, password)
  }

  /** The processor after `handlePasswordSkip` closed the modal and recorded the skipped file. */
  function Skipped(p: Proc): Proc {
    var docs :=
      if p.currentIndex < |p.fileList| then p.tempDocuments + [SkippedRecord(p.fileList[p.currentIndex].name)]
      else p.tempDocuments;
    p.(app := AppReducer(AppReducer(p.app, SetPasswordModal(InitialModal)), SetStatus(BlankStatus)),
       tempDocuments := docs, currentIndex := p.currentIndex + 1)
  }

  /** `handlePasswordSkip()`. */
  function Skip(env: Env, p: Proc): Proc {
    Run(env, Skipped(p))
  }
}
