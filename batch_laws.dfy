/**
 * Properties of the file processor's batch: what one file contributes, that
 * the success count always equals the number of success records, that a run
 * ends either published or waiting for a password, and what `start`,
 * submitting a password and skipping a file do.
 */
module BatchLaws {
  import opened Common
  import opened Text
  import opened Patterns
  import opened DataExtractor
  import opened Classifier
  import opened AppStore
  import opened Batch

  // ---------------------------------------------------------------------
  // One file

  /**
   * A file read and parsed gives exactly one success record for that file;
   * any error gives no metadata and at most one record, a `FAILED` error
   * record, which appears exactly when the text was read, the mode is not
   * one-shot and no parser claims the document. A password error is always
   * the reader's, and gives no record at all.
   */
  lemma ContentOutcome(env: Env, p: Settings, file: PdfFile, password: string)
    ensures var o := Content(env, p, file, password);
      var ex := env.extract(file, password);
      (o.thrown == NoThrow ==> |o.docs| == 1 && o.docs[0].status == "success" && o.docs[0].fileName == file.name) &&
      (o.thrown != NoThrow ==>
         o.metas == [] && |o.docs| <= 1 &&
         (forall d :: d in o.docs ==> d.status == "error" && d.docType == "FAILED" && d.fileName == file.name)) &&
      (o.thrown == PasswordThrow <==> ex.Failed? && IsPasswordFailure(ex.errorName, ex.errorMessage)) &&
      (ex.Failed? ==> o.docs == [] && o.metas == []) &&
      (o.thrown == OtherThrow && o.docs != [] <==>
         ex.Extracted? && p.selectedParser != OneShotMode &&
         FirstClaim(p.allParsers, p.selectedParser, CollapseWhitespace(CollapseTripleSpaces(ex.text))).None?)
  {
    var ex := env.extract(file, password);
    if ex.Extracted? {
      var raw := CollapseTripleSpaces(ex.text);
      if p.selectedParser == OneShotMode {
        OneShotOutcome(env.engine, p, file, raw);
      } else {
        ClassifiedOutcome(env.engine, p, file, raw);
      }
    }
  }

  lemma SuccessOutcome(file: PdfFile, docType: string, raw: string, pr: ParserResult, prior: seq<MetadataRecord>)
    ensures var o := Success(file, docType, raw, pr, prior);
      o.thrown == NoThrow && |o.docs| == 1 && o.docs[0].status == "success" && o.docs[0].fileName == file.name &&
      o.docs[0].docType == docType
  {
  }

  lemma OneShotOutcome(engine: Engine, p: Settings, file: PdfFile, raw: string)
    ensures var o := OneShot(engine, p, file, raw);
      o.thrown != PasswordThrow &&
      (o.thrown == NoThrow ==> |o.docs| == 1 && o.docs[0].status == "success" && o.docs[0].fileName == file.name) &&
      (o.thrown != NoThrow ==> o.docs == [] && o.metas == [])
  {
    if Trim(p.oneShotRegex) != "" {
      if p.oneShotGlobal {
        GlobalOutcome(engine, file, raw, Pattern(p.oneShotRegex, "g"));
      } else {
        SingleOutcome(engine, file, raw, Pattern(p.oneShotRegex, "s"));
      }
    }
  }

  lemma GlobalOutcome(engine: Engine, file: PdfFile, raw: string, rx: Pattern)
    ensures var o := GlobalOneShot(engine, file, raw, rx);
      o.thrown != PasswordThrow &&
      (o.thrown == NoThrow ==> |o.docs| == 1 && o.docs[0].status == "success" && o.docs[0].fileName == file.name) &&
      (o.thrown != NoThrow ==> o.docs == [] && o.metas == [])
  {
    if Compiles(engine, rx) && engine.allMatches(rx, raw).Done? {
      var ms := engine.allMatches(rx, raw).value;
      SuccessOutcome(file, OneShotType, raw, GeneralSpec(engine, raw, None, Some(rx)),
        seq(|ms|, i requires 0 <= i < |ms| => OneShotRecord(file, ms[i])));
    }
  }

  lemma SingleOutcome(engine: Engine, file: PdfFile, raw: string, rx: Pattern)
    ensures var o := SingleOneShot(engine, file, raw, rx);
      o.thrown != PasswordThrow &&
      (o.thrown == NoThrow ==> |o.docs| == 1 && o.docs[0].status == "success" && o.docs[0].fileName == file.name) &&
      (o.thrown != NoThrow ==> o.docs == [] && o.metas == [])
  {
    if Compiles(engine, rx) {
      SuccessOutcome(file, OneShotType, raw, GeneralSpec(engine, raw, Some(rx), None), []);
    }
  }

  lemma ClassifiedOutcome(engine: Engine, p: Settings, file: PdfFile, raw: string)
    ensures var o := Classified(engine, p, file, raw);
      o.thrown != PasswordThrow &&
      (o.thrown == NoThrow ==> |o.docs| == 1 && o.docs[0].status == "success" && o.docs[0].fileName == file.name) &&
      (o.thrown != NoThrow ==> o.metas == [] && (o.docs == [] || o.docs == [FailedRecord(file, raw)])) &&
      (o.thrown == OtherThrow && o.docs != [] <==> FirstClaim(p.allParsers, p.selectedParser, CollapseWhitespace(raw)).None?)
  {
    match FirstClaim(p.allParsers, p.selectedParser, CollapseWhitespace(raw))
    case None =>
    case Some(k) =>
      match RunParser(engine, p.allParsers[k], raw)
      case Threw =>
      case Done(pr) => SuccessOutcome(file, p.allParsers[k].name, raw, pr, []);
  }

  /**
   * One-shot failures: an empty or blank pattern, one that does not compile
   * (with `g` in global mode, `s` otherwise) or a throwing `matchAll` end
   * the file with an error and no record. A global pattern records one
   * metadata entry per match, and the default parser then finds no
   * metadata of its own.
   */
  lemma OneShotRecords(engine: Engine, p: Settings, file: PdfFile, raw: string)
    ensures var o := OneShot(engine, p, file, raw);
      var rx := Pattern(p.oneShotRegex, if p.oneShotGlobal then "g" else "s");
      (o.thrown == OtherThrow <==>
         Trim(p.oneShotRegex) == "" || !Compiles(engine, rx) || (p.oneShotGlobal && engine.allMatches(rx, raw).Threw?)) &&
      (o.thrown == NoThrow && p.oneShotGlobal ==>
         var ms := engine.allMatches(rx, raw).value;
         o.metas == seq(|ms|, i requires 0 <= i < |ms| => OneShotRecord(file, ms[i])) &&
         o.docs[0].metadata == [])
  {
  }

  /**
   * The success record of the default parser carries the parser's header
   * row and data rows exactly, and a metadata record is pushed exactly when
   * the parser found metadata fields.
   */
  lemma SuccessOfGeneral(file: PdfFile, docType: string, raw: string, engine: Engine,
                         metaRx: Option<Pattern>, tableRx: Option<Pattern>, prior: seq<MetadataRecord>)
    ensures var pr := GeneralSpec(engine, raw, metaRx, tableRx);
      var ms := TableMatches(engine, raw, tableRx);
      var o := Success(file, docType, raw, pr, prior);
      o.docs[0].headers == HeaderRow(ms) && o.docs[0].rows == DataRows(ms) &&
      o.docs[0].metadata == pr.metadataFields &&
      o.metas == prior + (if pr.metadataFields != [] then [MetadataRecord(file.name, docType, pr.metadataFields)] else [])
  {
    var pr := GeneralSpec(engine, raw, metaRx, tableRx);
    var ms := TableMatches(engine, raw, tableRx);
    var mc := |pr.metadataFields|;
    assert |MetadataRows(pr.metadataFields)| == mc;
    assert pr.allRows[mc] == HeaderRow(ms);
    assert pr.allRows[mc + 1..] == DataRows(ms);
  }

  /**
   * The IDBI statement always pushes a metadata record (its two fields), and
   * its success record is headed by the fixed IDBI header.
   */
  lemma SuccessOfIdbi(file: PdfFile, docType: string, raw: string, meta: Option<RegexMatch>, ms: seq<RegexMatch>)
    ensures var pr := IdbiResult(meta, ms);
      var o := Success(file, docType, raw, pr, []);
      o.docs[0].headers == IdbiHeaders && |o.docs[0].rows| == |ms| &&
      o.metas == [MetadataRecord(file.name, docType, pr.metadataFields)]
  {
    var pr := IdbiResult(meta, ms);
    assert |MetadataRows(pr.metadataFields)| == 2;
    assert pr.allRows[2] == IdbiHeaders;
  }

  // ---------------------------------------------------------------------
  // The success count

  /** The number of records with status "success". */
  function CountSuccess(docs: seq<DocRecord>): nat {
    if docs == [] then 0
    else CountSuccess(docs[..|docs| - 1]) + (if docs[|docs| - 1].status == "success" then 1 else 0)
  }

  predicate Counted(p: Proc) {
    p.successCount == CountSuccess(p.tempDocuments)
  }

  lemma {:induction false} CountAppend(a: seq<DocRecord>, b: seq<DocRecord>)
    ensures CountSuccess(a + b) == CountSuccess(a) + CountSuccess(b)
    decreases |b|
  {
    if b != [] {
      var init := b[..|b| - 1];
      assert (a + b)[..|a + b| - 1] == a + init;
      CountAppend(a, init);
    } else {
      assert a + b == a;
    }
  }

  lemma CountOne(d: DocRecord)
    ensures CountSuccess([d]) == if d.status == "success" then 1 else 0
  {
    assert [d][..0] == [];
  }

  /** Records that are not success records do not count. */
  lemma {:induction false} CountNone(docs: seq<DocRecord>)
    requires forall d :: d in docs ==> d.status != "success"
    ensures CountSuccess(docs) == 0
  {
    if docs != [] {
      CountNone(docs[..|docs| - 1]);
    }
  }

  /** What one pass does to the records and the count. */
  lemma PassedParts(p: Proc, o: Outcome)
    requires p.currentIndex < |p.fileList|
    ensures Passed(p, o).state.tempDocuments == p.tempDocuments + o.docs
    ensures Passed(p, o).state.successCount == p.successCount + (if o.thrown == NoThrow then 1 else 0)
  {
  }

  /** The records of an outcome of the shape `processFileContent` yields add one count per success. */
  lemma OutcomeCount(o: Outcome)
    requires o.thrown == NoThrow ==> |o.docs| == 1 && o.docs[0].status == "success"
    requires o.thrown != NoThrow ==> forall d :: d in o.docs ==> d.status == "error"
    ensures CountSuccess(o.docs) == if o.thrown == NoThrow then 1 else 0
  {
    if o.thrown == NoThrow {
      CountOne(o.docs[0]);
      assert o.docs == [o.docs[0]];
    } else {
      CountNone(o.docs);
    }
  }

  /** One pass over an outcome of the shape `processFileContent` yields keeps the count. */
  lemma PassedKeepsCount(p: Proc, o: Outcome)
    requires p.currentIndex < |p.fileList| && Counted(p)
    requires o.thrown == NoThrow ==> |o.docs| == 1 && o.docs[0].status == "success"
    requires o.thrown != NoThrow ==> forall d :: d in o.docs ==> d.status == "error"
    ensures Counted(Passed(p, o).state)
  {
    PassedParts(p, o);
    CountAppend(p.tempDocuments, o.docs);
    OutcomeCount(o);
  }

  lemma StepKeepsCount(env: Env, p: Proc)
    requires p.currentIndex < |p.fileList| && Counted(p)
    ensures Counted(Step(env, p).state)
  {
    var o := Content(env, p.settings, p.fileList[p.currentIndex], p.savedPassword);
    ContentOutcome(env, p.settings, p.fileList[p.currentIndex], p.savedPassword);
    PassedKeepsCount(p, o);
  }

  /** `successCount` equals the number of success records, before and after a run. */
  lemma {:induction false} RunKeepsCount(env: Env, p: Proc)
    requires Counted(p)
    ensures Counted(Run(env, p))
    decreases |p.fileList| - p.currentIndex
  {
    if p.currentIndex < |p.fileList| {
      StepKeepsCount(env, p);
      match Step(env, p)
      case Continue(q) => RunKeepsCount(env, q);
      case Suspend(q) =>
    }
  }

  // ---------------------------------------------------------------------
  // How a run ends

  /** The switches and the saved password of the application state that a run never touches. */
  predicate Untouched(a: AppState, b: AppState) {
    b.isTableVisible == a.isTableVisible && b.isRawTextVisible == a.isRawTextVisible &&
    b.isConsolidatedVisible == a.isConsolidatedVisible && b.inlineMetadata == a.inlineMetadata &&
    b.savedPassword == a.savedPassword
  }

  /** Every file was passed and the records are published with the summary. */
  predicate Finished(r: Proc) {
    r.currentIndex >= |r.fileList| && r.app.documents == r.tempDocuments &&
    r.app.consolidatedMetadata == r.tempMetadata && r.app.isResultVisible && r.app.status == Summary(r)
  }

  /** The run waits with the password modal open on the current file. */
  predicate Suspended(r: Proc) {
    r.currentIndex < |r.fileList| && r.app.passwordModal.isOpen &&
    r.app.passwordModal.fileName == r.fileList[r.currentIndex].name &&
    r.app.passwordModal.fileToProcess == Some(r.fileList[r.currentIndex])
  }

  /** Records are only ever added at the end. */
  predicate Extends(p: Proc, r: Proc) {
    |p.tempDocuments| <= |r.tempDocuments| && r.tempDocuments[..|p.tempDocuments|] == p.tempDocuments &&
    |p.tempMetadata| <= |r.tempMetadata| && r.tempMetadata[..|p.tempMetadata|] == p.tempMetadata
  }

  lemma FinalizePublishes(p: Proc)
    ensures var r := Finalize(p);
      Finished(r) || p.currentIndex < |p.fileList|
    ensures Finalize(p).app.status.kind == "info" <==> p.tempDocuments == [] && p.tempMetadata == []
    ensures Finalize(p).(app := p.app) == p && Untouched(p.app, Finalize(p).app) &&
      Finalize(p).app.passwordModal == p.app.passwordModal
  {
  }

  /** One pass only appends records, and leaves the modal empty when it stops. */
  lemma PassedEffect(p: Proc, o: Outcome)
    requires p.currentIndex < |p.fileList|
    ensures var n := Passed(p, o);
      Extends(p, n.state) && Untouched(p.app, n.state.app) &&
      (n.Suspend? ==> Suspended(n.state) && n.state.app.passwordModal.passwordInput == "")
  {
    assert (p.tempDocuments + o.docs)[..|p.tempDocuments|] == p.tempDocuments;
    assert (p.tempMetadata + o.metas)[..|p.tempMetadata|] == p.tempMetadata;
  }

  lemma StepEffect(env: Env, p: Proc)
    requires p.currentIndex < |p.fileList|
    ensures var n := Step(env, p);
      Extends(p, n.state) && Untouched(p.app, n.state.app) &&
      (n.Suspend? ==> Suspended(n.state) && n.state.app.passwordModal.passwordInput == "")
  {
    PassedEffect(p, Content(env, p.settings, p.fileList[p.currentIndex], p.savedPassword));
  }

  lemma ExtendsTrans(p: Proc, q: Proc, r: Proc)
    requires Extends(p, q) && Extends(q, r)
    ensures Extends(p, r)
  {
    assert r.tempDocuments[..|p.tempDocuments|] == r.tempDocuments[..|q.tempDocuments|][..|p.tempDocuments|];
    assert r.tempMetadata[..|p.tempMetadata|] == r.tempMetadata[..|q.tempMetadata|][..|p.tempMetadata|];
  }

  /**
   * A run ends in one of two ways: every file passed and the records
   * published with the summary status, or the password modal open on the
   * file it stopped at. It keeps the file list, the settings and the saved
   * password, never moves backwards, and only adds records.
   */
  lemma {:induction false} RunEnds(env: Env, p: Proc)
    ensures var r := Run(env, p);
      SameBatch(p, r) && p.currentIndex <= r.currentIndex && Extends(p, r) && Untouched(p.app, r.app) &&
      (Finished(r) || Suspended(r))
    decreases |p.fileList| - p.currentIndex
  {
    if p.currentIndex >= |p.fileList| {
      FinalizePublishes(p);
    } else {
      StepEffect(env, p);
      match Step(env, p)
      case Continue(q) =>
        RunEnds(env, q);
        ExtendsTrans(p, q, Run(env, q));
      case Suspend(q) =>
    }
  }

  // ---------------------------------------------------------------------
  // start, password submit and skip

  /** The dispatches of `start` clear the previous batch from the view and keep its other switches. */
  lemma OpenedEffect(a: AppState, selected: string)
    ensures Opened(a, selected) ==
      a.(isResultVisible := false, documents := [], inlineMetadata := false, consolidatedMetadata := [],
         savedPassword := "", status := BlankStatus,
         isConsolidatedVisible := selected == OneShotMode || a.isConsolidatedVisible)
  {
  }

  lemma ClosePromptEffect(a: AppState, saved: string)
    ensures ClosePrompt(a, saved) == a.(passwordModal := InitialModal, savedPassword := saved, status := BlankStatus)
  {
  }

  lemma RepromptEffect(a: AppState, file: PdfFile, password: string)
    ensures Reprompt(a, file, password) ==
      a.(status := WrongPasswordStatus, passwordModal := Merge(a.passwordModal, AskPassword(file, password)))
  {
  }

  /** With no PDF among the files, `start` only hides the results and clears the status. */
  lemma StartWithoutPdfs(env: Env, p: Proc, files: seq<PdfFile>, s: Settings, saved: string)
    requires forall f :: f in files ==> f.mimeType != PdfType
    ensures Start(env, p, files, s, saved) == p.(app := p.app.(isResultVisible := false, status := BlankStatus))
  {
  }

  /**
   * `start` runs a fresh batch over exactly the PDF files, in order, with
   * the settings it is given. The processor uses the saved password it is
   * passed while the application's saved password is cleared, and the
   * success count matches the records.
   */
  lemma StartRunsBatch(env: Env, p: Proc, files: seq<PdfFile>, s: Settings, saved: string)
    requires exists f :: f in files && f.mimeType == PdfType
    ensures var r := Start(env, p, files, s, saved);
      r.fileList == Pdfs(files) && r.settings == s && r.savedPassword == saved && r.app.savedPassword == "" &&
      r.app.isConsolidatedVisible == (s.selectedParser == OneShotMode || p.app.isConsolidatedVisible) &&
      Counted(r) && (Finished(r) || Suspended(r))
  {
    var f :| f in files && f.mimeType == PdfType;
    assert f in Pdfs(files);
    var q := Begun(p, Pdfs(files), s, saved);
    OpenedEffect(p.app, s.selectedParser);
    assert Counted(q);
    RunEnds(env, q);
    RunKeepsCount(env, q);
  }

  /** An empty password only sets the error status; the file stays waiting. */
  lemma SubmitEmpty(env: Env, p: Proc, file: PdfFile, useSubsequent: bool)
    ensures Submit(env, p, file, "", useSubsequent) == p.(app := p.app.(status := EnterPasswordStatus))
  {
  }

  /**
   * The retry after a password: a password the reader rejects reopens the
   * modal on the file with the password typed in and the error status,
   * adding no record and passing no file; any other outcome passes the file
   * and goes on with the batch. Either way the count keeps agreeing with the
   * records.
   */
  /** Passing the retried file, counted or not, runs the rest of the batch. */
  lemma RetryPasses(env: Env, q: Proc, o: Outcome, counted: bool)
    requires CountSuccess(o.docs) == if counted then 1 else 0
    ensures var r := Run(env, Pass(Absorb(q, o), counted));
      SameBatch(q, r) && Untouched(q.app, r.app) && q.currentIndex < r.currentIndex &&
      (Finished(r) || Suspended(r)) && (Counted(q) ==> Counted(r))
  {
    var a := Pass(Absorb(q, o), counted);
    CountAppend(q.tempDocuments, o.docs);
    assert Counted(q) ==> Counted(a);
    RunEnds(env, a);
    if Counted(q) {
      RunKeepsCount(env, a);
    }
  }

  lemma RetryOutcome(env: Env, q: Proc, file: PdfFile, password: string)
    ensures var r := Retry(env, q, file, password);
      var o := Content(env, q.settings, file, password);
      SameBatch(q, r) && Untouched(q.app, r.app) &&
      (o.thrown == PasswordThrow ==>
         r == q.(app := q.app.(status := WrongPasswordStatus, passwordModal := Merge(q.app.passwordModal, AskPassword(file, password))))) &&
      (o.thrown != PasswordThrow ==> q.currentIndex < r.currentIndex && (Finished(r) || Suspended(r))) &&
      (Counted(q) ==> Counted(r))
  {
    var o := Content(env, q.settings, file, password);
    ContentOutcome(env, q.settings, file, password);
    match o.thrown
    case NoThrow =>
      CountOne(o.docs[0]);
      assert o.docs == [o.docs[0]];
      RetryPasses(env, q, o, true);
    case PasswordThrow =>
      assert Absorb(q, o) == q;
      RepromptEffect(q.app, file, password);
    case OtherThrow =>
      CountNone(o.docs);
      RetryPasses(env, q, o, false);
  }

  /**
   * A non-empty password closes the modal and becomes the saved password,
   * in the processor and in the application, when it is to be used for the
   * following files, and clears the saved password otherwise. A rejected
   * password leaves the modal open on `file` again with that password.
   */
  lemma SubmitPassword(env: Env, p: Proc, file: PdfFile, password: string, useSubsequent: bool)
    requires |password| > 0
    ensures var r := Submit(env, p, file, password, useSubsequent);
      var saved := if useSubsequent then password else "";
      var o := Content(env, p.settings, file, password);
      r.savedPassword == saved && r.app.savedPassword == saved &&
      (o.thrown == PasswordThrow ==>
         r.currentIndex == p.currentIndex && r.tempDocuments == p.tempDocuments &&
         r.tempMetadata == p.tempMetadata && r.successCount == p.successCount &&
         r.app.passwordModal == PasswordModal(true, file.name, password, false, Some(file)) &&
         r.app.status == WrongPasswordStatus) &&
      (o.thrown != PasswordThrow ==> p.currentIndex < r.currentIndex && (Finished(r) || Suspended(r))) &&
      (Counted(p) ==> Counted(r))
  {
    var saved := if useSubsequent then password else "";
    ClosePromptEffect(p.app, saved);
    RetryOutcome(env, p.(savedPassword := saved, app := ClosePrompt(p.app, saved)), file, password);
  }

  lemma SkippedEffect(p: Proc)
    requires p.currentIndex < |p.fileList|
    ensures Skipped(p) ==
      p.(app := p.app.(passwordModal := InitialModal, status := BlankStatus),
         tempDocuments := p.tempDocuments + [SkippedRecord(p.fileList[p.currentIndex].name)],
         currentIndex := p.currentIndex + 1)
  {
  }

  /**
   * Skipping the waiting file adds exactly one `SKIPPED` record for it ahead
   * of anything the rest of the batch adds, passes it, and keeps the saved
   * password and the success count's agreement with the records.
   */
  lemma SkipRecordsOne(env: Env, p: Proc)
    requires p.currentIndex < |p.fileList|
    ensures var r := Skip(env, p);
      |r.tempDocuments| > |p.tempDocuments| &&
      r.tempDocuments[..|p.tempDocuments| + 1] == p.tempDocuments + [SkippedRecord(p.fileList[p.currentIndex].name)] &&
      |p.tempMetadata| <= |r.tempMetadata| && r.tempMetadata[..|p.tempMetadata|] == p.tempMetadata &&
      r.savedPassword == p.savedPassword && p.currentIndex < r.currentIndex &&
      (Finished(r) || Suspended(r))
  {
    var q := Skipped(p);
    SkippedEffect(p);
    RunEnds(env, q);
  }

  /** Skipping keeps the success count equal to the number of success records. */
  lemma SkipKeepsCount(env: Env, p: Proc)
    requires p.currentIndex < |p.fileList| && Counted(p)
    ensures Counted(Skip(env, p))
  {
    var q := Skipped(p);
    var skipped := SkippedRecord(p.fileList[p.currentIndex].name);
    SkippedEffect(p);
    CountAppend(p.tempDocuments, [skipped]);
    CountOne(skipped);
    RunKeepsCount(env, q);
  }
}
