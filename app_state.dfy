/**
 * The application state of the PDF data extractor and its reducer: the
 * status line, the document and metadata records of the last batch, the
 * visibility switches, the password modal and the saved password.
 */
module AppStore {
  import opened Common
  import opened DataExtractor

  /** A file of the batch: `file.name` and `file.type`; `id` tells equal-named files apart. */
  datatype PdfFile = PdfFile(id: nat, name: string, mimeType: string)

  /** One document record (`Docs`). */
  datatype DocRecord = DocRecord(
    fileName: string, docType: string, metadata: Fields, headers: Row, rows: seq<Row>,
    text: string, rawText: string, status: string)

  /** One metadata record (`DocMetadata`), the input of consolidation. */
  datatype MetadataRecord = MetadataRecord(fileName: string, docType: string, fields: Fields)

  /** `PasswordModalState`; `fileToProcess` is `None` for `null`. */
  datatype PasswordModal = PasswordModal(
    isOpen: bool, fileName: string, passwordInput: string, useForSubsequent: bool,
    fileToProcess: Option<PdfFile>)

  /** `INITIAL_MODAL_STATE`. */
  const InitialModal := PasswordModal(false, "", "", false, None)

  /** The payload of `UPDATE_PASSWORD_MODAL`: the properties it carries, `None` for those it leaves out. */
  datatype ModalPatch = ModalPatch(
    isOpen: Option<bool>, fileName: Option<string>, passwordInput: Option<string>,
    useForSubsequent: Option<bool>, fileToProcess: Option<Option<PdfFile>>)

  function Pick<T>(v: Option<T>, current: T): T {
    if v.Some? then v.value else current
  }

  /** `{ ...modal, ...patch }`. */
  function Merge(m: PasswordModal, p: ModalPatch): PasswordModal {
    PasswordModal(
      Pick(p.isOpen, m.isOpen), Pick(p.fileName, m.fileName), Pick(p.passwordInput, m.passwordInput),
      Pick(p.useForSubsequent, m.useForSubsequent), Pick(p.fileToProcess, m.fileToProcess))
  }

  function Later<T>(first: Option<T>, second: Option<T>): Option<T> {
    if second.Some? then second else first
  }

  /** The patch that has the effect of `p` followed by `q`. */
  function Combine(p: ModalPatch, q: ModalPatch): ModalPatch {
    ModalPatch(
      Later(p.isOpen, q.isOpen), Later(p.fileName, q.fileName), Later(p.passwordInput, q.passwordInput),
      Later(p.useForSubsequent, q.useForSubsequent), Later(p.fileToProcess, q.fileToProcess))
  }

  /** `AppState`. */
  datatype AppState = AppState(
    status: Status,
    documents: seq<DocRecord>,
    consolidatedMetadata: seq<MetadataRecord>,
    isResultVisible: bool,
    isTableVisible: bool,
    isRawTextVisible: bool,
    isConsolidatedVisible: bool,
    inlineMetadata: bool,
    passwordModal: PasswordModal,
    savedPassword: string)

  const BlankStatus := Status("", "")

  /** `initialAppState`. */
  const InitialAppState := AppState(BlankStatus, [], [], false, true, false, false, false, InitialModal, "")

  datatype AppAction =
    | SetStatus(status: Status)
    | SetDocuments(documents: seq<DocRecord>)
    | SetConsolidatedMetadata(metadata: seq<MetadataRecord>)
    | SetIsResultVisible(resultVisible: bool)
    | SetIsTableVisible(tableVisible: bool)
    | SetIsRawTextVisible(rawTextVisible: bool)
    | SetIsConsolidatedVisible(consolidatedVisible: bool)
    | SetInlineMetadata(inline: bool)
    | SetPasswordModal(modal: PasswordModal)
    | UpdatePasswordModal(patch: ModalPatch)
    | SetSavedPassword(password: string)
    | FinalizeProcessing(finalDocuments: seq<DocRecord>, finalMetadata: seq<MetadataRecord>, finalStatus: Status)
    | StartFileProcessing
    | UnknownAppAction

  /** `appReducer`. */
  function AppReducer(s: AppState, a: AppAction): AppState {
    match a
    case SetStatus(st) => s.(status := st)
    case SetDocuments(d) => s.(documents := d)
    case SetConsolidatedMetadata(m) => s.(consolidatedMetadata := m)
    case SetIsResultVisible(v) => s.(isResultVisible := v)
    case SetIsTableVisible(v) => s.(isTableVisible := v)
    case SetIsRawTextVisible(v) => s.(isRawTextVisible := v)
    case SetIsConsolidatedVisible(v) => s.(isConsolidatedVisible := v)
    case SetInlineMetadata(v) => s.(inlineMetadata := v)
    case SetPasswordModal(m) => s.(passwordModal := m)
    case UpdatePasswordModal(p) => s.(passwordModal := Merge(s.passwordModal, p))
    case SetSavedPassword(pw) => s.(savedPassword := pw)
    case FinalizeProcessing(d, m, st) =>
      s.(documents := d, consolidatedMetadata := m, isResultVisible := true, status := st)
    case StartFileProcessing =>
      s.(isResultVisible := false, documents := [], inlineMetadata := false,
         consolidatedMetadata := [], savedPassword := "", status := BlankStatus)
    case UnknownAppAction => s
  }

  /**
   * `UPDATE_PASSWORD_MODAL` merges: every property the patch carries is
   * replaced, every other one is kept, and nothing outside the modal
   * changes.
   */
  lemma UpdatePasswordModalMerges(s: AppState, p: ModalPatch)
    ensures var t := AppReducer(s, UpdatePasswordModal(p));
      t.(passwordModal := s.passwordModal) == s &&
      t.passwordModal.isOpen == (if p.isOpen.Some? then p.isOpen.value else s.passwordModal.isOpen) &&
      t.passwordModal.fileName == (if p.fileName.Some? then p.fileName.value else s.passwordModal.fileName) &&
      t.passwordModal.passwordInput == (if p.passwordInput.Some? then p.passwordInput.value else s.passwordModal.passwordInput) &&
      t.passwordModal.useForSubsequent == (if p.useForSubsequent.Some? then p.useForSubsequent.value else s.passwordModal.useForSubsequent) &&
      t.passwordModal.fileToProcess == (if p.fileToProcess.Some? then p.fileToProcess.value else s.passwordModal.fileToProcess)
  {
  }

  /**
   * Merging the same patch again changes nothing, and two merges in a row
   * are one merge of the combined patch.
   */
  lemma MergeLaws(m: PasswordModal, p: ModalPatch, q: ModalPatch)
    ensures Merge(Merge(m, p), p) == Merge(m, p)
    ensures Merge(Merge(m, p), q) == Merge(m, Combine(p, q))
  {
  }

  /**
   * `START_FILE_PROCESSING` hides the results, empties both record lists,
   * turns inline metadata off, clears the saved password and the status,
   * and keeps the modal and the other switches.
   */
  lemma StartFileProcessingResets(s: AppState)
    ensures var t := AppReducer(s, StartFileProcessing);
      !t.isResultVisible && t.documents == [] && t.consolidatedMetadata == [] && !t.inlineMetadata &&
      t.savedPassword == "" && t.status == BlankStatus &&
      t.passwordModal == s.passwordModal && t.isTableVisible == s.isTableVisible &&
      t.isRawTextVisible == s.isRawTextVisible && t.isConsolidatedVisible == s.isConsolidatedVisible
  {
  }

  /**
   * `FINALIZE_PROCESSING` publishes the batch's records and status and shows
   * the results; the saved password and the modal are kept. An unknown
   * action changes nothing.
   */
  lemma FinalizeProcessingPublishes(s: AppState, d: seq<DocRecord>, m: seq<MetadataRecord>, st: Status)
    ensures var t := AppReducer(s, FinalizeProcessing(d, m, st));
      t.documents == d && t.consolidatedMetadata == m && t.status == st && t.isResultVisible &&
      t.savedPassword == s.savedPassword && t.passwordModal == s.passwordModal
    ensures AppReducer(s, UnknownAppAction) == s
  {
  }
}
