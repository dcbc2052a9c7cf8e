/** The values the discovery traversal of both analyzers computes, as functions of the card: how
    far the file-table walk goes, which records each file yields, what a complete descriptor of
    a file and of an application is, the DF names a prefix reaches and the traceability
    information the first selecting prefix gives. The methods of `Analyzer` and
    `KeypleAnalyzer` are proved against these definitions. */
module AnalyzerSpec {
  import opened Wrappers
  import opened JavaText
  import opened ToolUtils
  import opened CardApi
  import opened Records
  import opened CardData

  // ---------------------------------------------------------------- the file-table walk

  /** The EF selection `o` succeeded and left a file table of exactly `n` entries. */
  predicate Reports(o: EfSelectOutcome, n: nat) {
    o.Selected? && |o.table| == n
  }

  /** Once FIRST_EF has left a one-file table, the walk issues NEXT_EF number j (j >= 1) with
      the expectation of j + 1 files, and goes on for as long as each one leaves exactly that;
      the result is the number of the NEXT_EF that ends the walk. */
  function WalkEnd(app: CardApplication, j: nat): (r: nat)
    requires j >= 1
    ensures r >= j
    ensures forall m :: j <= m < r ==> Reports(EfSelection(app, m), m + 1)
    ensures !Reports(EfSelection(app, r), r + 1)
    decreases |app.efSelections| - j
  {
    if Reports(EfSelection(app, j), j + 1) then WalkEnd(app, j + 1) else j
  }

  /** How many NEXT_EF commands the walk issues: none unless FIRST_EF leaves exactly one file,
      and then up to and including the first that fails or does not add exactly one file. */
  function NextEfCommands(app: CardApplication): (r: nat)
    ensures r == 0 <==> !Reports(EfSelection(app, 0), 1)
    ensures forall m :: 1 <= m < r ==> Reports(EfSelection(app, m), m + 1)
    ensures r >= 1 ==> !Reports(EfSelection(app, r), r + 1)
  {
    if Reports(EfSelection(app, 0), 1) then WalkEnd(app, 1) else 0
  }

  /** How a walk ends: the outcome of the last selection it issues and the file table it
      leaves, which is that of the last selection that succeeded (none when FIRST_EF fails). */
  datatype WalkEnding = WalkEnding(last: EfSelectOutcome, files: seq<ElementaryFile>)

  /** The walk from NEXT_EF number j (j >= 1) on, `table` being the table of the selection
      before it: each selection that adds exactly one file is followed by the next one. */
  function WalkFrom(app: CardApplication, j: nat, table: seq<ElementaryFile>): WalkEnding
    requires j >= 1
    decreases |app.efSelections| - j
  {
    var o := EfSelection(app, j);
    if Reports(o, j + 1) then WalkFrom(app, j + 1, o.table)
    else WalkEnding(o, if o.Selected? then o.table else table)
  }

  /** The whole walk: FIRST_EF, then NEXT_EF as long as FIRST_EF leaves a one-file table. */
  function Walk(app: CardApplication): WalkEnding {
    var o := EfSelection(app, 0);
    if Reports(o, 1) then WalkFrom(app, 1, o.table)
    else WalkEnding(o, if o.Selected? then o.table else [])
  }

  /** The file table the walk leaves. */
  function WalkFiles(app: CardApplication): seq<ElementaryFile> {
    Walk(app).files
  }

  /** The walk from NEXT_EF number j on ends with the selection `WalkEnd` names, and leaves its
      table when it succeeded, otherwise that of the selection before it. */
  lemma {:induction false} WalkFromEnd(app: CardApplication, j: nat, table: seq<ElementaryFile>)
    requires j >= 1
    ensures var e := WalkEnd(app, j);
            WalkFrom(app, j, table)
            == WalkEnding(EfSelection(app, e),
                          if EfSelection(app, e).Selected? then EfSelection(app, e).table
                          else if e == j then table
                          else EfSelection(app, e - 1).table)
    decreases |app.efSelections| - j
  {
    var o := EfSelection(app, j);
    if Reports(o, j + 1) {
      WalkFromEnd(app, j + 1, o.table);
    }
  }

  /** The walk ends on the selection whose number `NextEfCommands` gives; the table it leaves is
      empty when FIRST_EF fails, is the last table reported when the last selection succeeded,
      and otherwise holds exactly one entry per selection issued before the failing last one. */
  lemma WalkFilesTable(app: CardApplication)
    ensures Walk(app).last == EfSelection(app, NextEfCommands(app))
    ensures !EfSelection(app, 0).Selected? ==> WalkFiles(app) == []
    ensures EfSelection(app, NextEfCommands(app)).Selected?
            ==> WalkFiles(app) == EfSelection(app, NextEfCommands(app)).table
    ensures !EfSelection(app, NextEfCommands(app)).Selected?
            ==> |WalkFiles(app)| == NextEfCommands(app)
  {
    var o := EfSelection(app, 0);
    if Reports(o, 1) {
      WalkFromEnd(app, 1, o.table);
      var n := NextEfCommands(app);
      if n > 1 {
        assert Reports(EfSelection(app, n - 1), n);
      }
    }
  }

  /** The newer walk catches status errors and failed file selections; any other exception of
      the last selection it issues ends the analysis. */
  predicate WalkAborts(app: CardApplication) {
    Walk(app).last.SelectOtherError?
  }

  /** A walk over tables of 1, 2, 3 and 3 entries issues exactly three NEXT_EF commands and
      leaves the last table, of three files. */
  lemma WalkExample(app: CardApplication)
    requires |app.efSelections| == 4
    requires forall k :: 0 <= k < 4 ==> app.efSelections[k].Selected?
    requires |app.efSelections[0].table| == 1 && |app.efSelections[1].table| == 2
    requires |app.efSelections[2].table| == 3 && |app.efSelections[3].table| == 3
    ensures NextEfCommands(app) == 3 && !WalkAborts(app)
    ensures WalkFiles(app) == app.efSelections[3].table && |WalkFiles(app)| == 3
  {
    assert Reports(EfSelection(app, 0), 1) && Reports(EfSelection(app, 1), 2);
    assert Reports(EfSelection(app, 2), 3) && !Reports(EfSelection(app, 3), 4);
    WalkFilesTable(app);
  }

  /** A walk whose third selection fails after tables of 1 and 2 entries leaves the table of two
      files, as a status error or failed file selection, and aborts on any other failure. */
  lemma WalkStopsOnFailure(app: CardApplication)
    requires |app.efSelections| == 3
    requires app.efSelections[0].Selected? && |app.efSelections[0].table| == 1
    requires app.efSelections[1].Selected? && |app.efSelections[1].table| == 2
    requires !app.efSelections[2].Selected?
    ensures NextEfCommands(app) == 2
    ensures WalkFiles(app) == app.efSelections[1].table
    ensures WalkAborts(app) <==> app.efSelections[2] == SelectOtherError
  {
    assert Reports(EfSelection(app, 0), 1) && Reports(EfSelection(app, 1), 2);
    assert !Reports(EfSelection(app, 2), 3);
    assert Walk(app) == WalkFrom(app, 2, app.efSelections[1].table);
    WalkFilesTable(app);
  }

  // ---------------------------------------------------------------- reading records

  /** The read predicate of `getFileData`: records are read from every file that is not binary,
      whose group-0 access condition is none of 01, 14 and 15, and whose SFI is not 0. */
  predicate ReadsRecords(file: ElementaryFile) {
    file.header.efType != Binary
    && file.header.accessConditions[0] != 0x01
    && file.header.accessConditions[0] != 0x14
    && file.header.accessConditions[0] != 0x15
    && file.sfi != 0
  }

  /** The records read so far after reading records 1 to n, in that order; `None` as soon as one
      READ RECORD fails. Record `n` is requested with the byte `(byte) n`. */
  function ReadUpTo(file: ElementaryFile, app: CardApplication, n: nat): (r: Option<seq<RecordData>>)
    requires n < 0x8000_0000
    ensures r.Some? ==> |r.value| == n
  {
    if n == 0 then Some([])
    else
      match ReadUpTo(file, app, n - 1)
      case None => None
      case Some(prefix) =>
        match app.readRecord(file.sfi, ToJByte(n))
        case None => None
        case Some(content) => Some(prefix + [RecordData(ToHexInt(n), content)])
  }

  /** The record list `getFileData` leaves in the descriptor of `file`, or `None` when a read
      fails: empty for a file it does not read, records 1 to recordsNumber otherwise. */
  function RecordsRead(file: ElementaryFile, app: CardApplication): Option<seq<RecordData>> {
    if !ReadsRecords(file) || file.header.recordsNumber <= 0 then Some([])
    else ReadUpTo(file, app, file.header.recordsNumber)
  }

  /** Record k (from 0) of a successful read loop is record number k + 1: its index is the
      hexadecimal of k + 1 and its value what the card returned for `(byte) (k + 1)`. */
  lemma {:induction false} ReadUpToRecords(file: ElementaryFile, app: CardApplication, n: nat, k: nat)
    requires n < 0x8000_0000 && k < n && ReadUpTo(file, app, n).Some?
    ensures app.readRecord(file.sfi, ToJByte(k + 1)).Some?
    ensures ReadUpTo(file, app, n).value[k]
      == RecordData(ToHexInt(k + 1), app.readRecord(file.sfi, ToJByte(k + 1)).value)
  {
    if k < n - 1 {
      ReadUpToRecords(file, app, n - 1, k);
    }
  }

  /** Once a read has failed the loop has failed for good. */
  lemma {:induction false} ReadUpToFailurePersists(file: ElementaryFile, app: CardApplication, m: nat, n: nat)
    requires m <= n < 0x8000_0000 && ReadUpTo(file, app, m).None?
    ensures ReadUpTo(file, app, n).None?
    decreases n - m
  {
    if m < n {
      ReadUpToFailurePersists(file, app, m, n - 1);
    }
  }

  /** What the read predicate decides: a file it rejects keeps an empty record list, and a file
      it accepts gets exactly recordsNumber records, numbered 1, 2, ... in order, unless a read
      fails. */
  lemma RecordsReadMeaning(file: ElementaryFile, app: CardApplication)
    ensures !ReadsRecords(file) ==> RecordsRead(file, app) == Some([])
    ensures ReadsRecords(file) && RecordsRead(file, app).Some? ==>
      |RecordsRead(file, app).value| == (if file.header.recordsNumber < 0 then 0
                                         else file.header.recordsNumber)
      && forall k :: 0 <= k < |RecordsRead(file, app).value| ==>
        RecordsRead(file, app).value[k].index == ToHexInt(k + 1)
  {
    if ReadsRecords(file) && file.header.recordsNumber > 0 && RecordsRead(file, app).Some? {
      forall k | 0 <= k < file.header.recordsNumber
        ensures RecordsRead(file, app).value[k].index == ToHexInt(k + 1)
      {
        ReadUpToRecords(file, app, file.header.recordsNumber, k);
      }
    }
  }

  // ---------------------------------------------------------------- applications

  /** Its CURRENT_DF selection succeeds, the walk does not abort and every read of the files
      of the table it leaves succeeds: analysing the application raises nothing. */
  predicate Analysable(app: CardApplication) {
    app.currentDfSucceeds && !WalkAborts(app) && FilesReadable(WalkFiles(app), app)
  }

  /** Every read of the files of `files` succeeds. */
  predicate FilesReadable(files: seq<ElementaryFile>, app: CardApplication) {
    forall i :: 0 <= i < |files| ==> RecordsRead(files[i], app).Some?
  }

  /** `f` is the descriptor `getFileData` builds for `file`: its fields come from the header
      and its records are those read from the file. */
  predicate FileAnalysed(f: CardFileData, file: ElementaryFile, app: CardApplication)
    reads f
  {
    f.fileInfo == file && RecordsRead(file, app) == Some(f.recordDataList)
  }

  /** `fs[i]` is the descriptor `getFileData` builds for `files[i]`, for each of the first |fs|
      files. */
  predicate FilesAnalysed(fs: seq<CardFileData>, files: seq<ElementaryFile>, app: CardApplication)
    reads fs
  {
    |fs| <= |files| && forall i :: 0 <= i < |fs| ==> FileAnalysed(fs[i], files[i], app)
  }

  /** Appending the descriptor of the next file keeps the list analysed. */
  lemma FilesAnalysedAppend(fs: seq<CardFileData>, files: seq<ElementaryFile>, app: CardApplication,
                            f: CardFileData)
    requires FilesAnalysed(fs, files, app) && |fs| < |files| && FileAnalysed(f, files[|fs|], app)
    ensures FilesAnalysed(fs + [f], files, app)
  {
    forall i | 0 <= i < |fs| + 1
      ensures FileAnalysed((fs + [f])[i], files[i], app)
    {
      if i < |fs| {
        assert (fs + [f])[i] == fs[i];
      } else {
        assert (fs + [f])[i] == f;
      }
    }
  }

  /** `a` is the descriptor the analyzer builds for `app`: its fields come from the selection and
      its file list holds one descriptor per file of the table the walk leaves, in table order,
      each with the records read from it. */
  predicate Analysed(a: CardApplicationData, app: CardApplication, extractLong: seq<JByte> -> int)
    reads a, a.fileList
  {
    a.appData == app.card && a.csnDec == extractLong(app.card.applicationSerialNumber)
    && |a.fileList| == |WalkFiles(app)|
    && FilesAnalysed(a.fileList, WalkFiles(app), app)
  }

  /** A descriptor of an application walked over tables of 1, 2, 3 and 3 entries holds three
      files, those of the last table. */
  lemma AnalysedExample(a: CardApplicationData, app: CardApplication, extractLong: seq<JByte> -> int)
    requires Analysed(a, app, extractLong)
    requires |app.efSelections| == 4
    requires forall k :: 0 <= k < 4 ==> app.efSelections[k].Selected?
    requires |app.efSelections[0].table| == 1 && |app.efSelections[1].table| == 2
    requires |app.efSelections[2].table| == 3 && |app.efSelections[3].table| == 3
    ensures |a.fileList| == 3
    ensures forall i :: 0 <= i < 3 ==> a.fileList[i].fileInfo == app.efSelections[3].table[i]
  {
    WalkExample(app);
  }

  /** A descriptor of an application whose FIRST_EF selection fails holds no file. */
  lemma AnalysedFirstEfFails(a: CardApplicationData, app: CardApplication,
                             extractLong: seq<JByte> -> int)
    requires Analysed(a, app, extractLong)
    requires !EfSelection(app, 0).Selected?
    ensures a.fileList == []
  {
    WalkFilesTable(app);
  }

  /** The DF names `getApplicationsData` collects for a prefix: those of the FIRST occurrence and
      of each NEXT one until a selection fails, printed in hexadecimal. */
  function DfNames(card: Card, aidPrefix: string): (r: seq<string>)
    ensures |r| == |card.select(aidPrefix)|
    ensures forall k :: 0 <= k < |r| ==> r[k] == ToHexBytes(card.select(aidPrefix)[k].card.dfName)
  {
    seq(|card.select(aidPrefix)|, k requires 0 <= k < |card.select(aidPrefix)| =>
      ToHexBytes(card.select(aidPrefix)[k].card.dfName))
  }

  /** Analysing every name raises nothing. */
  predicate AllAnalysable(card: Card, aids: seq<string>) {
    forall k :: 0 <= k < |aids| ==> |card.select(aids[k])| > 0 && Analysable(card.select(aids[k])[0])
  }

  /** `a` is the descriptor `getApplicationData(aid)` returns. */
  predicate AppAnalysed(a: CardApplicationData, card: Card, aid: string,
                        extractLong: seq<JByte> -> int)
    reads a, a.fileList
  {
    |card.select(aid)| > 0 && Analysed(a, card.select(aid)[0], extractLong)
  }

  /** Analysing the concatenation of two lists of names raises nothing exactly when analysing
      each raises nothing. */
  lemma AllAnalysableConcat(card: Card, aids1: seq<string>, aids2: seq<string>)
    ensures AllAnalysable(card, aids1 + aids2)
        <==> AllAnalysable(card, aids1) && AllAnalysable(card, aids2)
  {
    var aids := aids1 + aids2;
    if AllAnalysable(card, aids1) && AllAnalysable(card, aids2) {
      forall k | 0 <= k < |aids|
        ensures |card.select(aids[k])| > 0 && Analysable(card.select(aids[k])[0])
      {
        if k < |aids1| {
          assert aids[k] == aids1[k];
        } else {
          assert aids[k] == aids2[k - |aids1|];
        }
      }
    }
    if AllAnalysable(card, aids) {
      forall k | 0 <= k < |aids1|
        ensures |card.select(aids1[k])| > 0 && Analysable(card.select(aids1[k])[0])
      {
        assert aids[k] == aids1[k];
      }
      forall k | 0 <= k < |aids2|
        ensures |card.select(aids2[k])| > 0 && Analysable(card.select(aids2[k])[0])
      {
        assert aids[|aids1| + k] == aids2[k];
      }
    }
  }

  /** Descriptors for two lists of names, one after the other, are descriptors for the
      concatenated list. */
  lemma AppsAnalysedConcat(apps: seq<CardApplicationData>, card: Card, aids1: seq<string>,
                           aids2: seq<string>, extractLong: seq<JByte> -> int)
    requires |apps| == |aids1| + |aids2|
    requires forall j :: 0 <= j < |aids1| ==> AppAnalysed(apps[j], card, aids1[j], extractLong)
    requires forall j :: 0 <= j < |aids2| ==>
      AppAnalysed(apps[|aids1| + j], card, aids2[j], extractLong)
    ensures forall j :: 0 <= j < |aids1 + aids2| ==>
      AppAnalysed(apps[j], card, (aids1 + aids2)[j], extractLong)
  {
    forall j | 0 <= j < |aids1 + aids2|
      ensures AppAnalysed(apps[j], card, (aids1 + aids2)[j], extractLong)
    {
      if j < |aids1| {
        assert (aids1 + aids2)[j] == aids1[j];
      } else {
        assert (aids1 + aids2)[j] == aids2[j - |aids1|];
        assert apps[j] == apps[|aids1| + (j - |aids1|)];
      }
    }
  }

  // ---------------------------------------------------------------- traceability

  /** The first prefix whose selection reaches an application, if any. */
  function FirstSelecting(card: Card, prefixes: seq<string>): (r: Option<nat>)
    ensures r.Some? ==>
      r.value < |prefixes| && |card.select(prefixes[r.value])| > 0
      && forall j :: 0 <= j < r.value ==> |card.select(prefixes[j])| == 0
    ensures r.None? ==> forall j :: 0 <= j < |prefixes| ==> |card.select(prefixes[j])| == 0
  {
    if prefixes == [] then None
    else if |card.select(prefixes[0])| > 0 then Some(0)
    else
      match FirstSelecting(card, prefixes[1..])
      case None => None
      case Some(k) => Some(k + 1)
  }

  /** FirstSelecting is the least selecting index. */
  lemma {:induction false} FirstSelectingIs(card: Card, prefixes: seq<string>, k: nat)
    requires k < |prefixes| && |card.select(prefixes[k])| > 0
    requires forall j :: 0 <= j < k ==> |card.select(prefixes[j])| == 0
    ensures FirstSelecting(card, prefixes) == Some(k)
  {
    if k > 0 {
      FirstSelectingIs(card, prefixes[1..], k - 1);
    }
  }

  lemma {:induction false} FirstSelectingNone(card: Card, prefixes: seq<string>)
    requires forall j :: 0 <= j < |prefixes| ==> |card.select(prefixes[j])| == 0
    ensures FirstSelecting(card, prefixes) == None
  {
    if prefixes != [] {
      FirstSelectingNone(card, prefixes[1..]);
    }
  }

  // ---------------------------------------------------------------- the tool's run

  /** The prefixes the tool tries, in order. */
  const AidPrefixList: seq<string> := [
    "A0000004040125009101",
    "A000000291FF91",
    "A000000291FF92",
    "A000000291A000000191",
    "D276000085",
    "334D54522E",
    "315449432E",
    "304554502E",
    "A000000291"]

  /** The name, and id, of the document written for a card whose first application has serial
      number value `csnDec`. */
  function ReportFileName(dateString: string, csnDec: int): (r: string)
    ensures |r| == |dateString| + 15 + |Decimal(csnDec)|
    ensures r[..|dateString|] == dateString
    ensures r[|r| - 5..] == ".json"
  {
    dateString + "_CardData_" + Decimal(csnDec) + ".json"
  }

  /** Documents written on the same kind of date string have distinct names for distinct serial
      numbers and dates. */
  lemma ReportFileNameInjective(d1: string, c1: int, d2: string, c2: int)
    requires |d1| == |d2| && ReportFileName(d1, c1) == ReportFileName(d2, c2)
    ensures d1 == d2 && c1 == c2
  {
    var n1 := ReportFileName(d1, c1);
    var n2 := ReportFileName(d2, c2);
    var s1 := Decimal(c1);
    var s2 := Decimal(c2);
    assert |s1| == |s2|;
    var start := |d1| + 10;
    assert n1[start..start + |s1|] == s1;
    assert n2[start..start + |s2|] == s2;
    DecimalInjective(c1, c2);
  }

  /** The names the run analyses, prefix after prefix. */
  function AllDfNames(card: Card, prefixes: seq<string>): (r: seq<string>)
  {
    if prefixes == [] then []
    else AllDfNames(card, prefixes[..|prefixes| - 1]) + DfNames(card, prefixes[|prefixes| - 1])
  }

  /** A run that analyses all names analyses the names of every leading run of prefixes. */
  lemma {:induction false} AllAnalysablePrefix(card: Card, prefixes: seq<string>, k: nat)
    requires k <= |prefixes| && AllAnalysable(card, AllDfNames(card, prefixes))
    ensures AllAnalysable(card, AllDfNames(card, prefixes[..k]))
    decreases |prefixes|
  {
    var n := |prefixes|;
    if k == n {
      assert prefixes[..k] == prefixes;
    } else {
      var init := prefixes[..n - 1];
      AllAnalysableConcat(card, AllDfNames(card, init), DfNames(card, prefixes[n - 1]));
      AllAnalysablePrefix(card, init, k);
      assert init[..k] == prefixes[..k];
    }
  }

  /** The value `getTraceabilityInfo` returns or the exception it raises. */
  function GetTraceabilityInfoSpec(card: Card, prefixes: seq<string>): Result<Option<seq<JByte>>, Failure> {
    match FirstSelecting(card, prefixes)
    case None => Success(None)
    case Some(k) =>
      var app := card.select(prefixes[k])[0];
      if app.getData == DataOtherError then Failure(GetDataFailed) else Success(app.traceability)
  }
}
