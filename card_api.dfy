/** The card as both tools see it through the card API: the headers a selection reports and an
    oracle for the answers of the reader. The API's internals (APDU exchange, selection
    scenarios, transaction managers) are not modelled; only the values and outcomes the tools
    branch on are. */
module CardApi {
  import opened Wrappers
  import opened JavaText
  import opened ToolUtils

  /** The four entries of an access-condition or key-index array: the card API always reports
      one per access group. */
  type Quad = s: seq<JByte> | |s| == 4 witness [0, 0, 0, 0]

  /** The header of an elementary file (`FileHeader`). */
  datatype FileHeader = FileHeader(
    lid: JShort,
    efType: EfType,
    recordSize: JInt,
    recordsNumber: JInt,
    accessConditions: Quad,
    keyIndexes: Quad,
    sharedReference: JShort)

  /** An entry of the selected application's file table (`ElementaryFile`). */
  datatype ElementaryFile = ElementaryFile(sfi: JByte, header: FileHeader)

  /** The header of the selected DF (`DirectoryHeader`); the key identifiers and versions are
      given per write-access level. */
  datatype DirectoryHeader = DirectoryHeader(
    lid: JShort,
    kifPersonalization: JByte, kifLoad: JByte, kifDebit: JByte,
    kvcPersonalization: JByte, kvcLoad: JByte, kvcDebit: JByte,
    dfStatus: JByte,
    accessConditions: Quad,
    keyIndexes: Quad)

  /** What a successful application selection reports (`CalypsoCard`). */
  datatype CalypsoCard = CalypsoCard(
    applicationSerialNumber: seq<JByte>,
    productType: string,
    sessionModification: JByte,
    platform: JByte,
    softwareIssuer: JByte,
    softwareVersion: JByte,
    softwareRevision: JByte,
    selectApplicationResponse: seq<JByte>,
    dfName: seq<JByte>,
    directoryHeader: DirectoryHeader,
    applicationType: JByte,
    applicationSubtype: JByte)

  /** The outcome of an EF selection command (FIRST_EF or NEXT_EF): the file table the selected
      application's card object holds once the command has filled it in, in table order, or the
      exception the command raises (an unexpected status word, a failed file selection, or any
      other failure of the transaction). A command that raises leaves the table as it was. */
  datatype EfSelectOutcome =
    | Selected(table: seq<ElementaryFile>)
    | StatusError
    | SelectFileError
    | SelectOtherError

  /** The outcome of a GET DATA command: done, an unexpected status word, or any other failure. */
  datatype GetDataOutcome = DataDone | DataStatusError | DataOtherError

  /** Why an analysis stops on an exception nobody catches. */
  datatype Failure =
    | NoActiveCard       // a transaction on an application that was not selected
    | CurrentDfFailed    // the CURRENT_DF selection failed
    | SelectFileFailed   // an EF selection raised an exception the walk does not catch
    | ReadRecordFailed   // a READ RECORD command failed
    | GetDataFailed      // a GET DATA command failed where it is not caught

  /** How the reader answers for one application of the card once it is selected.
      - `currentDfSucceeds` says whether the CURRENT_DF selection succeeds.
      - `efSelections[k]` is the outcome of the k-th EF selection of the file-table walk (the
        first is FIRST_EF, the others NEXT_EF); a selection past the end of the script fails
        with a status error. The file table starts empty, and the one the files are read from
        is the table of the last selection that succeeded (`AnalyzerSpec.WalkFiles`).
      - `readRecord(sfi, n)` is the outcome of READ RECORD for record number `n` of the file with
        that SFI: `None` when the command fails, otherwise the content the card object then
        holds for that record.
      - `getData` is the outcome of GET DATA (traceability information) and `traceability` what
        the card object reports as traceability afterwards (`None` for Java `null`). */
  datatype CardApplication = CardApplication(
    card: CalypsoCard,
    currentDfSucceeds: bool,
    efSelections: seq<EfSelectOutcome>,
    readRecord: (JByte, int) -> Option<seq<JByte>>,
    getData: GetDataOutcome,
    traceability: Option<seq<JByte>>)

  /** The card in the reader: `select(aid)` lists, in occurrence order, the applications a
      selection by DF name `aid` reaches; the FIRST occurrence is element 0 and each NEXT
      occurrence the following one. */
  datatype Card = Card(select: string -> seq<CardApplication>)

  /** The outcome of the k-th EF selection. */
  function EfSelection(app: CardApplication, k: nat): EfSelectOutcome {
    if k < |app.efSelections| then app.efSelections[k] else StatusError
  }
}
