/**
 * `FileProcessor`: the object that walks a batch of PDF files, one file at a
 * time, pausing for a password when a file needs one. Each method changes
 * the fields exactly as the matching function of `Batch` says; what that
 * means for the batch is proved in `BatchLaws`. The `dispatchApp` callback
 * is the `app` field, updated through the application reducer.
 */
module Processing {
  import opened Common
  import opened Text
  import opened Patterns
  import opened DataExtractor
  import opened Classifier
  import opened AppStore
  import opened Batch

  class FileProcessor {
    /** The PDF reader and the regular-expression engine. */
    const env: Env

    var fileList: seq<PdfFile>
    var currentIndex: nat
    var tempDocuments: seq<DocRecord>
    var tempMetadata: seq<MetadataRecord>
    var successCount: nat
    var allParsers: seq<Parser>
    var selectedParser: string
    var savedPassword: string
    var oneShotRegex: string
    var oneShotGlobal: bool
    /** The application state that `dispatchApp` updates. */
    var app: AppState

    function CurrentSettings(): Settings
      reads this
    {
      Settings(allParsers, selectedParser, oneShotRegex, oneShotGlobal)
    }

    /** The fields as a value. */
    function State(): Proc
      reads this
    {
      Proc(fileList, currentIndex, tempDocuments, tempMetadata, successCount, CurrentSettings(), savedPassword, app)
    }

    constructor (env: Env, app: AppState)
      ensures this.env == env
      ensures State() == Batch.Reset(Proc([], 0, [], [], 0, InitialSettings, "", app))
    {
      this.env := env;
      this.app := app;
      new;
      Reset();
    }

    method Reset()
      modifies this
      ensures State() == Batch.Reset(old(State()))
    {
      fileList := [];
      currentIndex := 0;
      tempDocuments := [];
      tempMetadata := [];
      successCount := 0;
      allParsers := [];
      selectedParser := AutoMode;
      savedPassword := "";
      oneShotRegex := "";
      oneShotGlobal := false;
    }

    /** `this.dispatchApp(action)`. */
    method DispatchApp(action: AppAction)
      modifies this
      ensures State() == old(State()).(app := AppReducer(old(app), action))
    {
      app := AppReducer(app, action);
    }

    method Start(files: seq<PdfFile>, parsers: seq<Parser>, selected: string, saved: string,
                 rx: string, global: bool)
      modifies this
      ensures State() == Batch.Start(env, old(State()), files, Settings(parsers, selected, rx, global), saved)
    {
      if |files| == 0 {
        DispatchApp(SetIsResultVisible(false));
        DispatchApp(SetStatus(BlankStatus));
        return;
      }
      var pdfs := Pdfs(files);
      if |pdfs| == 0 {
        DispatchApp(SetIsResultVisible(false));
        DispatchApp(SetStatus(BlankStatus));
        return;
      }
      Begin(pdfs, parsers, selected, saved, rx, global);
      ProcessNextFile();
    }

    /** The part of `start` before the first `processNextFile()`: reset, take the batch's settings and open the view. */
    method Begin(pdfs: seq<PdfFile>, parsers: seq<Parser>, selected: string, saved: string, rx: string, global: bool)
      modifies this
      ensures State() == Begun(old(State()), pdfs, Settings(parsers, selected, rx, global), saved)
    {
      Reset();
      fileList := pdfs;
      allParsers := parsers;
      selectedParser := selected;
      savedPassword := saved;
      oneShotRegex := rx;
      oneShotGlobal := global;
      DispatchApp(StartFileProcessing);
      if selected == OneShotMode {
        DispatchApp(SetIsConsolidatedVisible(true));
      }
    }

    /** `processNextFile()`: the calls it makes of itself become the loop. */
    method ProcessNextFile()
      modifies this
      ensures State() == Run(env, old(State()))
    {
      while currentIndex < |fileList|
        invariant Run(env, State()) == Run(env, old(State()))
        decreases |fileList| - currentIndex
      {
        var suspended := ProcessCurrentFile();
        if suspended {
          return;
        }
      }
      Finalize();
    }

    /** One pass of `processNextFile` for the file at `currentIndex`; true when it stopped for a password. */
    method ProcessCurrentFile() returns (suspended: bool)
      requires currentIndex < |fileList|
      modifies this
      ensures var n := Step(env, old(State()));
        State() == n.state && (suspended <==> n.Suspend?)
    {
      ghost var before := State();
      var file := fileList[currentIndex];
      ghost var o := Content(env, before.settings, file, before.savedPassword);
      DispatchApp(SetStatus(ProgressStatus(currentIndex, |fileList|, file.name)));
      var thrown := ProcessFileContent(file, savedPassword);
      suspended := AfterContent(before, o, file, thrown);
    }

    /** The rest of one pass once `processFileContent` ended with `o`, which threw `thrown`. */
    method AfterContent(ghost before: Proc, ghost o: Outcome, file: PdfFile, thrown: Thrown) returns (suspended: bool)
      requires before.currentIndex < |before.fileList| && file == before.fileList[before.currentIndex]
      requires thrown == o.thrown
      requires State() == Absorb(before.(app := AppReducer(before.app,
        SetStatus(ProgressStatus(before.currentIndex, |before.fileList|, file.name)))), o)
      modifies this
      ensures var n := Passed(before, o);
        State() == n.state && (suspended <==> n.Suspend?)
    {
      if thrown == NoThrow {
        successCount := successCount + 1;
        currentIndex := currentIndex + 1;
        suspended := false;
      } else if thrown == PasswordThrow {
        DispatchApp(UpdatePasswordModal(AskPassword(file, "")));
        suspended := true;
      } else {
        currentIndex := currentIndex + 1;
        suspended := false;
      }
    }

    /** The `parserFound` branch: push the metadata record, if any, and the success record. */
    method RecordSuccess(file: PdfFile, docType: string, raw: string, pr: ParserResult)
      modifies this
      ensures State() == Absorb(old(State()), Success(file, docType, raw, pr, []))
    {
      if |pr.metadataFields| > 0 {
        tempMetadata := tempMetadata + [MetadataRecord(file.name, docType, pr.metadataFields)];
      }
      var metaCount := |pr.metadataFields|;
      var headerRow := if |pr.allRows| > metaCount then pr.allRows[metaCount] else [];
      var dataRows := if |pr.allRows| > metaCount + 1 then pr.allRows[metaCount + 1..] else [];
      tempDocuments := tempDocuments + [DocRecord(file.name, docType, pr.metadataFields, headerRow, dataRows, "", raw, "success")];
    }

    /** `processFileContent(file, password)`; the exception it throws is the result. */
    method ProcessFileContent(file: PdfFile, password: string) returns (thrown: Thrown)
      modifies this
      ensures var o := Content(env, old(CurrentSettings()), file, password);
        thrown == o.thrown && State() == Absorb(old(State()), o)
    {
      var extracted := env.extract(file, password);
      if extracted.Failed? {
        thrown := if IsPasswordFailure(extracted.errorName, extracted.errorMessage) then PasswordThrow else OtherThrow;
        return;
      }
      var raw := CollapseTripleSpaces(extracted.text);
      if selectedParser == OneShotMode {
        thrown := ProcessOneShot(file, raw);
      } else {
        thrown := ProcessClassified(file, raw);
      }
    }

    /** The classifying branch of `processFileContent`: find the parser that claims the text and run it. */
    method ProcessClassified(file: PdfFile, raw: string) returns (thrown: Thrown)
      modifies this
      ensures var o := Classified(env.engine, old(CurrentSettings()), file, raw);
        thrown == o.thrown && State() == Absorb(old(State()), o)
    {
      var clean := CollapseWhitespace(raw);
      var k := Classify(allParsers, selectedParser, clean);
      if k.None? {
        tempDocuments := tempDocuments + [FailedRecord(file, raw)];
        return OtherThrow;
      }
      var parser := allParsers[k.value];
      var result := RunParser(env.engine, parser, raw);
      if result.Threw? {
        return OtherThrow;
      }
      RecordSuccess(file, parser.name, raw, result.value);
      thrown := NoThrow;
    }

    /** The one-shot branch of `processFileContent`. */
    method ProcessOneShot(file: PdfFile, raw: string) returns (thrown: Thrown)
      modifies this
      ensures var o := OneShot(env.engine, old(CurrentSettings()), file, raw);
        thrown == o.thrown && State() == Absorb(old(State()), o)
    {
      ghost var start := State();
      ghost var target := OneShot(env.engine, CurrentSettings(), file, raw);
      if Trim(oneShotRegex) == "" {
        assert target == Outcome([], [], OtherThrow);
        assert State() == start;
        assert start.tempDocuments + [] == start.tempDocuments;
        assert Absorb(start, target) == start;
        return OtherThrow;
      }
      if oneShotGlobal {
        thrown := ProcessGlobalOneShot(file, raw, Pattern(oneShotRegex, "g"));
      } else {
        thrown := ProcessSingleOneShot(file, raw, Pattern(oneShotRegex, "s"));
      }
    }

    /** The branch of a global one-shot pattern `rx`. */
    method ProcessGlobalOneShot(file: PdfFile, raw: string, rx: Pattern) returns (thrown: Thrown)
      modifies this
      ensures var o := GlobalOneShot(env.engine, file, raw, rx);
        thrown == o.thrown && State() == Absorb(old(State()), o)
    {
      ghost var start := State();
      ghost var target := GlobalOneShot(env.engine, file, raw, rx);
      if !Compiles(env.engine, rx) {
        assert target == Outcome([], [], OtherThrow);
        return OtherThrow;
      }
      var all := env.engine.allMatches(rx, raw);
      if all.Threw? {
        assert target == Outcome([], [], OtherThrow);
        return OtherThrow;
      }
      var ms := all.value;
      ghost var prior := seq(|ms|, i requires 0 <= i < |ms| => OneShotRecord(file, ms[i]));
      PushMatchRecords(file, ms);
      var parsed := GeneralDocumentParser(env.engine, raw, None, Some(rx));
      assert target == Success(file, OneShotType, raw, parsed, prior);
      ghost var o := Success(file, OneShotType, raw, parsed, []);
      RecordSuccess(file, OneShotType, raw, parsed);
      assert start.tempMetadata + prior + o.metas == start.tempMetadata + (prior + o.metas);
      thrown := NoThrow;
    }

    /** The branch of a single-match one-shot pattern `rx`. */
    method ProcessSingleOneShot(file: PdfFile, raw: string, rx: Pattern) returns (thrown: Thrown)
      modifies this
      ensures var o := SingleOneShot(env.engine, file, raw, rx);
        thrown == o.thrown && State() == Absorb(old(State()), o)
    {
      if !Compiles(env.engine, rx) {
        return OtherThrow;
      }
      var parsed := GeneralDocumentParser(env.engine, raw, Some(rx), None);
      RecordSuccess(file, OneShotType, raw, parsed);
      thrown := NoThrow;
    }

    /** The `matches.forEach` of a global one-shot pattern: one metadata record per match. */
    method PushMatchRecords(file: PdfFile, ms: seq<RegexMatch>)
      modifies this
      ensures State() == old(State()).(tempMetadata :=
        old(tempMetadata) + seq(|ms|, i requires 0 <= i < |ms| => OneShotRecord(file, ms[i])))
    {
      ghost var records := seq(|ms|, i requires 0 <= i < |ms| => OneShotRecord(file, ms[i]));
      for i := 0 to |ms|
        invariant State() == old(State()).(tempMetadata := old(tempMetadata) + records[..i])
      {
        assert records[..i + 1] == records[..i] + [OneShotRecord(file, ms[i])];
        tempMetadata := tempMetadata + [OneShotRecord(file, ms[i])];
      }
      assert records[..|ms|] == records;
    }

    method Finalize()
      modifies this
      ensures State() == Batch.Finalize(old(State()))
    {
      DispatchApp(FinalizeProcessing(tempDocuments, tempMetadata, Summary(State())));
    }

    method HandlePasswordSubmit(file: PdfFile, password: string, useSubsequent: bool)
      modifies this
      ensures State() == Submit(env, old(State()), file, password, useSubsequent)
    {
      if |password| == 0 {
        DispatchApp(SetStatus(EnterPasswordStatus));
        return;
      }
      DispatchApp(SetPasswordModal(InitialModal));
      savedPassword := if useSubsequent then password else "";
      DispatchApp(SetSavedPassword(savedPassword));
      DispatchApp(SetStatus(BlankStatus));
      ghost var q := State();
      ghost var o := Content(env, q.settings, file, password);
      var thrown := ProcessFileContent(file, password);
      AfterRetry(q, o, file, password, thrown);
    }

    /** The rest of `handlePasswordSubmit` once `processFileContent` ended with `o`, which threw `thrown`. */
    method AfterRetry(ghost q: Proc, ghost o: Outcome, file: PdfFile, password: string, thrown: Thrown)
      requires thrown == o.thrown && State() == Absorb(q, o)
      modifies this
      ensures State() == Retried(env, q, file, password, o)
    {
      ghost var r := Absorb(q, o);
      if thrown == NoThrow {
        successCount := successCount + 1;
        currentIndex := currentIndex + 1;
        assert State() == Pass(r, true);
        ProcessNextFile();
      } else if thrown == PasswordThrow {
        DispatchApp(SetStatus(WrongPasswordStatus));
        DispatchApp(UpdatePasswordModal(AskPassword(file, password)));
        assert State() == r.(app := Reprompt(r.app, file, password));
      } else {
        currentIndex := currentIndex + 1;
        assert State() == Pass(r, false);
        ProcessNextFile();
      }
    }

    method HandlePasswordSkip()
      modifies this
      ensures State() == Skip(env, old(State()))
    {
      SkipCurrent();
      ProcessNextFile();
    }

    /** The part of `handlePasswordSkip` before `processNextFile()`: close the modal and record the skipped file. */
    method SkipCurrent()
      modifies this
      ensures State() == Skipped(old(State()))
    {
      DispatchApp(SetPasswordModal(InitialModal));
      DispatchApp(SetStatus(BlankStatus));
      if currentIndex < |fileList| {
        tempDocuments := tempDocuments + [SkippedRecord(fileList[currentIndex].name)];
      }
      currentIndex := currentIndex + 1;
    }
  }
}
