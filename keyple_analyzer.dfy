/** The discovery traversal of the older analyzer (`org.cna.keyple` `Tool_AnalyzeCardFileStructure`).
    Its files are walked, read and gathered the same way as in the newer analyzer, but it
    catches less: a failed file selection during the walk and any failed GET DATA end the run.
    Occurrences of a prefix are selected one by one (FIRST, then NEXT until nothing is selected)
    instead of being collected first, and its descriptors are those of `KeypleCardData`. The
    first part states, as functions of the card, what a run computes; the methods after it are
    proved against it. */
module KeypleAnalyzer {
  import opened Wrappers
  import opened JavaText
  import opened ToolUtils
  import opened CardApi
  import opened Records
  import opened KeypleCardData
  import CardData
  import Spec = AnalyzerSpec

  // ================================================================ specification

  /** The walk ends on an exception `fillFilesTable` does not catch: only status errors end it
      quietly, a failed file selection or any other failure ends the analysis. The selection
      that ends the walk is the FIRST_EF when it does not leave a one-file table, and otherwise
      the last NEXT_EF issued. */
  predicate WalkAborts(app: CardApplication) {
    Spec.Walk(app).last.SelectFileError? || Spec.Walk(app).last.SelectOtherError?
  }

  /** Analysing the application raises nothing: the CURRENT_DF selection succeeds, the walk does
      not abort and every read of the files of the table it leaves succeeds. */
  predicate Analysable(app: CardApplication) {
    app.currentDfSucceeds && !WalkAborts(app) && Spec.FilesReadable(Spec.WalkFiles(app), app)
  }

  /** `f` is the descriptor `getFileData` builds for `file`: its fields come from the header and
      its records are those read from the file. */
  predicate FileAnalysed(f: CardFileData, file: ElementaryFile, app: CardApplication)
    reads f
  {
    f.fileInfo == file && Spec.RecordsRead(file, app) == Some(f.recordData)
  }

  /** `fs[i]` is the descriptor `getFileData` builds for `files[i]`, for each of the first |fs|
      files. */
  predicate FilesAnalysed(fs: seq<CardFileData>, files: seq<ElementaryFile>, app: CardApplication)
    reads fs
  {
    |fs| <= |files| && forall i :: 0 <= i < |fs| ==> FileAnalysed(fs[i], files[i], app)
  }

  /** Appending the descriptor of the next file keeps the list analysed. */
  lemma FilesAnalysedAppend(fs: seq<CardFileData>, files: seq<ElementaryFile>, app: CardApplication,
                            f: CardFileData)
    requires FilesAnalysed(fs, files, app) && |fs| < |files| && FileAnalysed(f, files[|fs|], app)
    ensures FilesAnalysed(fs + [f], files, app)
  {
    forall i | 0 <= i < |fs| + 1
      ensures FileAnalysed((fs + [f])[i], files[i], app)
    {
      if i < |fs| {
        assert (fs + [f])[i] == fs[i];
      } else {
        assert (fs + [f])[i] == f;
      }
    }
  }

  /** `a` is the descriptor `getApplicationData` builds for `app`: its fields come from the
      selection and its file list holds one descriptor per file of the table the walk leaves, in
      table order. */
  predicate Analysed(a: CardApplicationData, app: CardApplication, bytesToLong: seq<JByte> -> int)
    reads a, a.fileList
  {
    a.appData == app.card && a.csnDec == bytesToLong(app.card.applicationSerialNumber)
    && |a.fileList| == |Spec.WalkFiles(app)|
    && FilesAnalysed(a.fileList, Spec.WalkFiles(app), app)
  }

  /** A descriptor of an application walked over tables of 1, 2, 3 and 3 entries holds three
      files, those of the last table. */
  lemma AnalysedExample(a: CardApplicationData, app: CardApplication, bytesToLong: seq<JByte> -> int)
    requires Analysed(a, app, bytesToLong)
    requires |app.efSelections| == 4
    requires forall k :: 0 <= k < 4 ==> app.efSelections[k].Selected?
    requires |app.efSelections[0].table| == 1 && |app.efSelections[1].table| == 2
    requires |app.efSelections[2].table| == 3 && |app.efSelections[3].table| == 3
    ensures |a.fileList| == 3
    ensures forall i :: 0 <= i < 3 ==> a.fileList[i].fileInfo == app.efSelections[3].table[i]
  {
    Spec.WalkExample(app);
  }

  /** A descriptor of an application whose FIRST_EF selection fails holds no file. */
  lemma AnalysedFirstEfFails(a: CardApplicationData, app: CardApplication,
                             bytesToLong: seq<JByte> -> int)
    requires Analysed(a, app, bytesToLong)
    requires !EfSelection(app, 0).Selected?
    ensures a.fileList == []
  {
    Spec.WalkFilesTable(app);
  }

  /** Every application of the list can be analysed. */
  predicate AllAnalysable(apps: seq<CardApplication>) {
    forall j :: 0 <= j < |apps| ==> Analysable(apps[j])
  }

  /** The applications of a concatenation can all be analysed exactly when those of each part
      can. */
  lemma AllAnalysableConcat(apps1: seq<CardApplication>, apps2: seq<CardApplication>)
    ensures AllAnalysable(apps1 + apps2) <==> AllAnalysable(apps1) && AllAnalysable(apps2)
  {
    var apps := apps1 + apps2;
    if AllAnalysable(apps1) && AllAnalysable(apps2) {
      forall j | 0 <= j < |apps|
        ensures Analysable(apps[j])
      {
        if j < |apps1| {
          assert apps[j] == apps1[j];
        } else {
          assert apps[j] == apps2[j - |apps1|];
        }
      }
    }
    if AllAnalysable(apps) {
      forall j | 0 <= j < |apps1|
        ensures Analysable(apps1[j])
      {
        assert apps[j] == apps1[j];
      }
      forall j | 0 <= j < |apps2|
        ensures Analysable(apps2[j])
      {
        assert apps[|apps1| + j] == apps2[j];
      }
    }
  }

  /** Descriptors of two lists of applications, one after the other, are descriptors of the
      concatenated list. */
  lemma AppsAnalysedConcat(list: seq<CardApplicationData>, apps1: seq<CardApplication>,
                           apps2: seq<CardApplication>, bytesToLong: seq<JByte> -> int)
    requires |list| == |apps1| + |apps2|
    requires forall j :: 0 <= j < |apps1| ==> Analysed(list[j], apps1[j], bytesToLong)
    requires forall j :: 0 <= j < |apps2| ==> Analysed(list[|apps1| + j], apps2[j], bytesToLong)
    ensures forall j :: 0 <= j < |apps1 + apps2| ==> Analysed(list[j], (apps1 + apps2)[j], bytesToLong)
  {
    forall j | 0 <= j < |apps1 + apps2|
      ensures Analysed(list[j], (apps1 + apps2)[j], bytesToLong)
    {
      if j < |apps1| {
        assert (apps1 + apps2)[j] == apps1[j];
      } else {
        assert (apps1 + apps2)[j] == apps2[j - |apps1|];
        assert list[j] == list[|apps1| + (j - |apps1|)];
      }
    }
  }

  /** The applications the run analyses, prefix after prefix, each prefix's occurrences in
      order. */
  function AllSelections(card: Card, prefixes: seq<string>): (r: seq<CardApplication>)
  {
    if prefixes == [] then []
    else AllSelections(card, prefixes[..|prefixes| - 1]) + card.select(prefixes[|prefixes| - 1])
  }

  /** A run that analyses all applications analyses those of every leading run of prefixes. */
  lemma {:induction false} AllAnalysablePrefix(card: Card, prefixes: seq<string>, k: nat)
    requires k <= |prefixes| && AllAnalysable(AllSelections(card, prefixes))
    ensures AllAnalysable(AllSelections(card, prefixes[..k]))
    decreases |prefixes|
  {
    var n := |prefixes|;
    if k == n {
      assert prefixes[..k] == prefixes;
    } else {
      var init := prefixes[..n - 1];
      AllAnalysableConcat(AllSelections(card, init), card.select(prefixes[n - 1]));
      AllAnalysablePrefix(card, init, k);
      assert init[..k] == prefixes[..k];
    }
  }

  /** The value `getTraceabilityInfo` returns or the exception it raises: GET DATA is not
      guarded, so any failure of it ends the run. */
  function GetTraceabilityInfoSpec(card: Card, prefixes: seq<string>): Result<Option<seq<JByte>>, Failure> {
    match Spec.FirstSelecting(card, prefixes)
    case None => Success(None)
    case Some(k) =>
      var app := card.select(prefixes[k])[0];
      if app.getData != DataDone then Failure(GetDataFailed) else Success(app.traceability)
  }

  /** Where the two generations part: on the same card, a GET DATA status error, which the
      newer analyzer only logs, ends the older one's run. */
  lemma TraceabilityStatusError(card: Card, prefixes: seq<string>)
    requires Spec.FirstSelecting(card, prefixes).Some?
    requires card.select(prefixes[Spec.FirstSelecting(card, prefixes).value])[0].getData
             == DataStatusError
    ensures GetTraceabilityInfoSpec(card, prefixes) == Failure(GetDataFailed)
    ensures Spec.GetTraceabilityInfoSpec(card, prefixes).Success?
  {
  }

  /** What the older analyzer completes the newer one completes too: it catches at least what
      the older one catches. */
  lemma AnalysableInBoth(app: CardApplication)
    requires Analysable(app)
    ensures Spec.Analysable(app)
  {
  }

  /** Where the two walks part: a failed file selection, which the newer walk catches, ends the
      older one's analysis. */
  lemma WalkSelectFileError(app: CardApplication)
    requires EfSelection(app, Spec.NextEfCommands(app)) == SelectFileError
    ensures WalkAborts(app) && !Spec.WalkAborts(app)
  {
    Spec.WalkFilesTable(app);
  }

  /** The prefixes the tool tries, in order. */
  const AidList: seq<string> := [
    "A000000291FF91",
    "A000000291FF92",
    "A000000291A000000191",
    "D276000085",
    "334D54522E",
    "315449432E",
    "304554502E",
    "A000000291"]

  // ================================================================ the file-table walk

  /** `fillFilesTable`: FIRST_EF, then NEXT_EF while the table grows by exactly one file; a
      status error ends the walk, any other failure is not caught. On success the result is the
      file table the walk leaves. */
  method FillFilesTable(app: CardApplication) returns (r: Result<seq<ElementaryFile>, Failure>)
    ensures r == if WalkAborts(app) then Failure(SelectFileFailed)
                 else Success(Spec.WalkFiles(app))
  {
    var files: seq<ElementaryFile> := [];
    var first := EfSelection(app, 0);
    if first == SelectFileError || first == SelectOtherError {
      return Failure(SelectFileFailed);
    }
    if first == StatusError {
      return Success(files);
    }
    files := first.table;
    if |files| != 1 {
      return Success(files);
    }
    var numberOfFiles := 1;
    while true
      invariant numberOfFiles >= 1 && Spec.Walk(app) == Spec.WalkFrom(app, numberOfFiles, files)
      decreases |app.efSelections| - numberOfFiles
    {
      numberOfFiles := numberOfFiles + 1;
      var outcome := EfSelection(app, numberOfFiles - 1);
      if outcome == SelectFileError || outcome == SelectOtherError {
        return Failure(SelectFileFailed);
      }
      if outcome == StatusError {
        return Success(files);
      }
      files := outcome.table;
      if |files| != numberOfFiles {
        return Success(files);
      }
    }
  }

  // ================================================================ reading records

  /** The read loop of `getFileData`: records 1 to recordsNumber, in order, each read by a
      transaction of its own and appended as soon as it is read; a failed READ RECORD is not
      caught, and leaves the records read before it in place. */
  method ReadRecords(file: ElementaryFile, app: CardApplication, fileData: CardFileData)
    returns (ok: bool)
    requires Spec.ReadsRecords(file) && fileData.recordData == []
    modifies fileData
    ensures ok <==> Spec.RecordsRead(file, app).Some?
    ensures ok ==> Some(fileData.recordData) == Spec.RecordsRead(file, app)
  {
    var i := 0;
    while i < file.header.recordsNumber
      invariant 0 <= i && (i <= file.header.recordsNumber || i == 0)
      invariant Spec.ReadUpTo(file, app, i) == Some(fileData.recordData)
    {
      var content := app.readRecord(file.sfi, ToJByte(i + 1));
      if content.None? {
        Spec.ReadUpToFailurePersists(file, app, i + 1, file.header.recordsNumber);
        return false;
      }
      var record := MakeRecord(i + 1, content.value);
      fileData.AppendRecord(record);
      i := i + 1;
    }
    return true;
  }

  /** `getFileData`: the descriptor of `file`, with its records when the read predicate allows;
      a failed READ RECORD is not caught. */
  method GetFileData(file: ElementaryFile, app: CardApplication) returns (r: Result<CardFileData, Failure>)
    ensures r.Success? <==> Spec.RecordsRead(file, app).Some?
    ensures r.Success? ==> fresh(r.value) && FileAnalysed(r.value, file, app)
    ensures r.Failure? ==> r.error == ReadRecordFailed
  {
    var fileData := new CardFileData(file);
    if Spec.ReadsRecords(file) {
      var ok := ReadRecords(file, app, fileData);
      if !ok {
        return Failure(ReadRecordFailed);
      }
    }
    return Success(fileData);
  }

  // ================================================================ applications

  /** The iterator loop of `getApplicationData` over the file table `files`: one descriptor per
      file, appended in table order; the first failed read ends it. */
  method ReadFiles(files: seq<ElementaryFile>, app: CardApplication,
                   cardAppData: CardApplicationData)
    returns (ok: bool)
    requires cardAppData.fileList == []
    modifies cardAppData
    ensures ok <==> Spec.FilesReadable(files, app)
    ensures ok ==> |cardAppData.fileList| == |files|
                   && FilesAnalysed(cardAppData.fileList, files, app)
  {
    var k := 0;
    while k < |files|
      invariant 0 <= k <= |files| && |cardAppData.fileList| == k
      invariant FilesAnalysed(cardAppData.fileList, files, app)
      invariant forall i :: 0 <= i < k ==> Spec.RecordsRead(files[i], app).Some?
    {
      ok := AddFileData(files, app, cardAppData);
      if !ok {
        return false;
      }
      k := k + 1;
    }
    return true;
  }

  /** One turn of the loop over the file table. */
  method AddFileData(files: seq<ElementaryFile>, app: CardApplication,
                     cardAppData: CardApplicationData)
    returns (ok: bool)
    requires |cardAppData.fileList| < |files|
    requires FilesAnalysed(cardAppData.fileList, files, app)
    modifies cardAppData
    ensures ok <==> Spec.RecordsRead(files[old(|cardAppData.fileList|)], app).Some?
    ensures ok ==> |cardAppData.fileList| == old(|cardAppData.fileList|) + 1
                   && FilesAnalysed(cardAppData.fileList, files, app)
  {
    var fileData := GetFileData(files[|cardAppData.fileList|], app);
    if fileData.Failure? {
      return false;
    }
    AppendAnalysed(files, app, cardAppData, fileData.value);
    return true;
  }

  /** Appends the descriptor of the next file to the application's file list. */
  method AppendAnalysed(files: seq<ElementaryFile>, app: CardApplication,
                        cardAppData: CardApplicationData, f: CardFileData)
    requires |cardAppData.fileList| < |files|
    requires FilesAnalysed(cardAppData.fileList, files, app)
    requires FileAnalysed(f, files[|cardAppData.fileList|], app)
    modifies cardAppData
    ensures cardAppData.fileList == old(cardAppData.fileList) + [f]
    ensures FilesAnalysed(cardAppData.fileList, files, app)
  {
    ghost var before := cardAppData.fileList;
    cardAppData.AppendFile(f);
    assert FilesAnalysed(before, files, app);
    assert FileAnalysed(f, files[|before|], app);
    FilesAnalysedAppend(before, files, app, f);
  }

  /** `getApplicationData(fileOccurrence, aid)` for occurrence `k` of `aid` (FIRST is 0, each
      NEXT the one after the previous call's): `None` (Java `null`) when the selection reaches no
      application; otherwise CURRENT_DF (not guarded), the walk and the reads. */
  method GetApplicationData(card: Card, aid: string, k: nat, bytesToLong: seq<JByte> -> int)
    returns (r: Result<Option<CardApplicationData>, Failure>)
    ensures k >= |card.select(aid)| <==> r == Success(None)
    ensures k < |card.select(aid)| ==> (r.Success? <==> Analysable(card.select(aid)[k]))
    ensures r.Success? && r.value.Some? ==>
      k < |card.select(aid)| && fresh(r.value.value)
      && Analysed(r.value.value, card.select(aid)[k], bytesToLong)
    ensures r.Failure? ==>
      k < |card.select(aid)|
      && r.error == (if !card.select(aid)[k].currentDfSucceeds then CurrentDfFailed
                     else if WalkAborts(card.select(aid)[k]) then SelectFileFailed
                     else ReadRecordFailed)
  {
    var selected := card.select(aid);
    if k >= |selected| {
      return Success(None);
    }
    var app := selected[k];
    if !app.currentDfSucceeds {
      return Failure(CurrentDfFailed);
    }
    var cardAppData := new CardApplicationData(app.card, bytesToLong);
    var walk := FillFilesTable(app);
    if walk.Failure? {
      return Failure(walk.error);
    }
    var ok := ReadFiles(walk.value, app, cardAppData);
    if !ok {
      return Failure(ReadRecordFailed);
    }
    return Success(Some(cardAppData));
  }

  /** `getApplicationsData`: appends to the document's list the descriptor of the FIRST
      occurrence of `aid`, then of each NEXT one, until a selection reaches nothing; earlier
      entries are not touched. The result is the exception that ends the run, if any. */
  method GetApplicationsData(card: Card, aid: string, bytesToLong: seq<JByte> -> int,
                             doc: CardData.CardStructureData<CardApplicationData>)
    returns (failure: Option<Failure>)
    modifies doc`applicationList
    ensures failure.None? <==> AllAnalysable(card.select(aid))
    ensures failure.None? ==>
      |doc.applicationList| == |old(doc.applicationList)| + |card.select(aid)|
      && (forall j :: 0 <= j < |old(doc.applicationList)| ==>
            doc.applicationList[j] == old(doc.applicationList)[j])
      && (forall j :: 0 <= j < |card.select(aid)| ==>
            Analysed(doc.applicationList[|old(doc.applicationList)| + j], card.select(aid)[j],
                     bytesToLong))
  {
    ghost var base := |doc.applicationList|;
    ghost var apps := card.select(aid);
    var k := 0;
    // The call for k == 0 is the FIRST selection, each later one a NEXT selection.
    while true
      invariant 0 <= k <= |apps| && |doc.applicationList| == base + k
      invariant forall j :: 0 <= j < k ==> Analysable(apps[j])
      invariant forall j :: 0 <= j < base ==>
        doc.applicationList[j] == old(doc.applicationList)[j]
      invariant forall j :: 0 <= j < k ==>
        Analysed(doc.applicationList[base + j], apps[j], bytesToLong)
      decreases |apps| - k
    {
      var added := AddApplicationData(card, aid, base, k, bytesToLong, doc);
      if added.Failure? {
        return Some(added.error);
      }
      if !added.value {
        assert k == |apps|;
        return None;
      }
      k := k + 1;
    }
  }

  /** One turn of the loop of `getApplicationsData`: the descriptor of occurrence k of `aid` is
      appended after those of the occurrences before it (`true`), the selection reaches nothing
      (`false`), or the exception that ends the run is returned. */
  method AddApplicationData(card: Card, aid: string, ghost base: nat, k: nat,
                            bytesToLong: seq<JByte> -> int,
                            doc: CardData.CardStructureData<CardApplicationData>)
    returns (r: Result<bool, Failure>)
    requires k <= |card.select(aid)| && |doc.applicationList| == base + k
    requires forall j :: 0 <= j < k ==>
      Analysed(doc.applicationList[base + j], card.select(aid)[j], bytesToLong)
    modifies doc`applicationList
    ensures r == Success(false) <==> k == |card.select(aid)|
    ensures k < |card.select(aid)| ==> (r == Success(true) <==> Analysable(card.select(aid)[k]))
    ensures r != Success(true) ==> doc.applicationList == old(doc.applicationList)
    ensures r == Success(true) ==>
      |doc.applicationList| == base + k + 1
      && (forall j :: 0 <= j < base + k ==> doc.applicationList[j] == old(doc.applicationList)[j])
      && (forall j :: 0 <= j < k + 1 ==>
            Analysed(doc.applicationList[base + j], card.select(aid)[j], bytesToLong))
  {
    var cardAppData := GetApplicationData(card, aid, k, bytesToLong);
    if cardAppData.Failure? {
      return Failure(cardAppData.error);
    }
    if cardAppData.value.None? {
      return Success(false);
    }
    AppendApplication(doc, cardAppData.value.value, card.select(aid), base, k, bytesToLong);
    return Success(true);
  }

  /** `cardAppDataList.add(cardAppData)` for the k-th occurrence. */
  method AppendApplication(doc: CardData.CardStructureData<CardApplicationData>,
                           a: CardApplicationData, ghost apps: seq<CardApplication>,
                           ghost base: nat, ghost k: nat, bytesToLong: seq<JByte> -> int)
    requires |doc.applicationList| == base + k && k < |apps|
    requires forall j :: 0 <= j < k ==>
      Analysed(doc.applicationList[base + j], apps[j], bytesToLong)
    requires Analysed(a, apps[k], bytesToLong)
    modifies doc`applicationList
    ensures doc.applicationList == old(doc.applicationList) + [a]
    ensures forall j :: 0 <= j < k + 1 ==>
      Analysed(doc.applicationList[base + j], apps[j], bytesToLong)
  {
    ghost var before := doc.applicationList;
    doc.AppendApplications([a]);
    assert forall j :: 0 <= j < k ==> Analysed(before[base + j], apps[j], bytesToLong);
    assert Analysed(a, apps[k], bytesToLong);
    forall j | 0 <= j < k + 1
      ensures Analysed(doc.applicationList[base + j], apps[j], bytesToLong)
    {
      if j < k {
        assert doc.applicationList[base + j] == before[base + j];
      } else {
        assert doc.applicationList[base + j] == a;
      }
    }
  }

  // ================================================================ traceability

  /** `getTraceabilityInfo`: the traceability of the application the first selecting prefix
      reaches, after a GET DATA whose failure is not caught; `None` (Java `null`) when no prefix
      selects. Later prefixes are never tried. */
  method GetTraceabilityInfo(card: Card, aidList: seq<string>)
    returns (r: Result<Option<seq<JByte>>, Failure>)
    ensures Spec.FirstSelecting(card, aidList).None? ==> r == Success(None)
    ensures Spec.FirstSelecting(card, aidList).Some? ==>
      var app := card.select(aidList[Spec.FirstSelecting(card, aidList).value])[0];
      r == if app.getData != DataDone then Failure(GetDataFailed) else Success(app.traceability)
  {
    var k := 0;
    while k < |aidList|
      invariant 0 <= k <= |aidList|
      invariant forall j :: 0 <= j < k ==> |card.select(aidList[j])| == 0
    {
      var selected := card.select(aidList[k]);
      if |selected| > 0 {
        Spec.FirstSelectingIs(card, aidList, k);
        var calypsoCard := selected[0];
        if calypsoCard.getData != DataDone {
          return Failure(GetDataFailed);
        }
        return Success(calypsoCard.traceability);
      }
      k := k + 1;
    }
    Spec.FirstSelectingNone(card, aidList);
    return Success(None);
  }

  // ================================================================ the tool's run

  /** How a run of the tool ends. */
  datatype Outcome =
    | NoCard                            // "No card is present in the reader."
    | NoApplications                    // no prefix selects: "No applications found."
    | Aborted(failure: Failure)         // an exception nobody catches
    | Unnamed(doc: CardData.CardStructureData<CardApplicationData>)
        // no application was gathered: reading application 0 fails, the error is logged
    | Written(doc: CardData.CardStructureData<CardApplicationData>, fileName: string)

  /** `main` once the reader is set up, with the prefix list it builds. `creationDate` and
      `dateString` are the two formatted readings of the clock. */
  method AnalyzeCard(isCardPresent: bool, card: Card, bytesToLong: seq<JByte> -> int,
                     creationDate: string, dateString: string)
    returns (r: Outcome)
    ensures !isCardPresent <==> r == NoCard
    ensures isCardPresent ==>
      (r == NoApplications <==> GetTraceabilityInfoSpec(card, AidList) == Success(None))
    ensures isCardPresent && GetTraceabilityInfoSpec(card, AidList).Failure? ==>
      r == Aborted(GetDataFailed)
    ensures isCardPresent && GetTraceabilityInfoSpec(card, AidList).Success?
            && GetTraceabilityInfoSpec(card, AidList).value.Some? ==>
      (r.Aborted? <==> !AllAnalysable(AllSelections(card, AidList)))
    ensures r.Unnamed? || r.Written? ==>
      fresh(r.doc) && GetTraceabilityInfoSpec(card, AidList).Success?
      && GetTraceabilityInfoSpec(card, AidList).value == Some(r.doc.traceability)
      && r.doc.infos == "AnalyzeCardFileStructure" && r.doc.date == creationDate
      && r.doc.version == 2 && r.doc.software == "Keyple"
      && AllAnalysable(AllSelections(card, AidList))
      && |r.doc.applicationList| == |AllSelections(card, AidList)|
      && forall j :: 0 <= j < |AllSelections(card, AidList)| ==>
           Analysed(r.doc.applicationList[j], AllSelections(card, AidList)[j], bytesToLong)
    ensures r.Unnamed? ==> r.doc.applicationList == [] && r.doc.id == None
    ensures r.Written? ==>
      r.doc.applicationList != []
      && r.fileName == Spec.ReportFileName(dateString, r.doc.applicationList[0].csnDec)
      && r.doc.id == Some(r.fileName)
  {
    r := AnalyzeCardWith(isCardPresent, card, AidList, bytesToLong, creationDate, dateString);
  }

  /** The run of `main` over a list of prefixes: the traceability probe, then the document, then
      its name. */
  method AnalyzeCardWith(isCardPresent: bool, card: Card, aidList: seq<string>,
                         bytesToLong: seq<JByte> -> int, creationDate: string, dateString: string)
    returns (r: Outcome)
    ensures !isCardPresent <==> r == NoCard
    ensures isCardPresent ==>
      (r == NoApplications <==> GetTraceabilityInfoSpec(card, aidList) == Success(None))
    ensures isCardPresent && GetTraceabilityInfoSpec(card, aidList).Failure? ==>
      r == Aborted(GetDataFailed)
    ensures isCardPresent && GetTraceabilityInfoSpec(card, aidList).Success?
            && GetTraceabilityInfoSpec(card, aidList).value.Some? ==>
      (r.Aborted? <==> !AllAnalysable(AllSelections(card, aidList)))
    ensures r.Unnamed? || r.Written? ==>
      fresh(r.doc) && GetTraceabilityInfoSpec(card, aidList).Success?
      && GetTraceabilityInfoSpec(card, aidList).value == Some(r.doc.traceability)
      && r.doc.infos == "AnalyzeCardFileStructure" && r.doc.date == creationDate
      && r.doc.version == 2 && r.doc.software == "Keyple"
      && AllAnalysable(AllSelections(card, aidList))
      && |r.doc.applicationList| == |AllSelections(card, aidList)|
      && forall j :: 0 <= j < |AllSelections(card, aidList)| ==>
           Analysed(r.doc.applicationList[j], AllSelections(card, aidList)[j], bytesToLong)
    ensures r.Unnamed? ==> r.doc.applicationList == [] && r.doc.id == None
    ensures r.Written? ==>
      r.doc.applicationList != []
      && r.fileName == Spec.ReportFileName(dateString, r.doc.applicationList[0].csnDec)
      && r.doc.id == Some(r.fileName)
  {
    if !isCardPresent {
      return NoCard;
    }
    var traceabilityInfo := GetTraceabilityInfo(card, aidList);
    if traceabilityInfo.Failure? {
      return Aborted(traceabilityInfo.error);
    }
    if traceabilityInfo.value.None? {
      return NoApplications;
    }
    var doc := new CardData.CardStructureData<CardApplicationData>(
      traceabilityInfo.value.value, "AnalyzeCardFileStructure", creationDate, 2, "Keyple");
    var failure := GatherApplications(card, aidList, bytesToLong, doc);
    if failure.Some? {
      return Aborted(failure.value);
    }
    if |doc.applicationList| == 0 {
      return Unnamed(doc);
    }
    var fileName := Spec.ReportFileName(dateString, doc.applicationList[0].csnDec);
    doc.SetId(fileName);
    return Written(doc, fileName);
  }

  /** The loop of `main` over the prefixes: `getApplicationsData` for each, in order, on a
      document whose list starts empty. It stops at the first exception. */
  method GatherApplications(card: Card, aidList: seq<string>, bytesToLong: seq<JByte> -> int,
                            doc: CardData.CardStructureData<CardApplicationData>)
    returns (failure: Option<Failure>)
    requires doc.applicationList == []
    modifies doc`applicationList
    ensures failure.None? <==> AllAnalysable(AllSelections(card, aidList))
    ensures failure.None? ==>
      |doc.applicationList| == |AllSelections(card, aidList)|
      && forall j :: 0 <= j < |AllSelections(card, aidList)| ==>
           Analysed(doc.applicationList[j], AllSelections(card, aidList)[j], bytesToLong)
  {
    var k := 0;
    ghost var apps: seq<CardApplication> := [];
    while k < |aidList|
      invariant 0 <= k <= |aidList| && apps == AllSelections(card, aidList[..k])
      invariant AllAnalysable(apps) && |doc.applicationList| == |apps|
      invariant forall j :: 0 <= j < |apps| ==>
        Analysed(doc.applicationList[j], apps[j], bytesToLong)
    {
      failure := AnalyzePrefix(card, aidList[k], bytesToLong, doc, apps);
      assert aidList[..k + 1][..k] == aidList[..k];
      AllAnalysableConcat(apps, card.select(aidList[k]));
      if failure.Some? {
        if AllAnalysable(AllSelections(card, aidList)) {
          AllAnalysablePrefix(card, aidList, k + 1);
        }
        return;
      }
      apps := apps + card.select(aidList[k]);
      k := k + 1;
    }
    assert aidList[..k] == aidList;
    return None;
  }

  /** One turn of the loop over the prefixes: `getApplicationsData` for `aid`, whose
      descriptors follow those gathered for the earlier applications `apps`. */
  method AnalyzePrefix(card: Card, aid: string, bytesToLong: seq<JByte> -> int,
                       doc: CardData.CardStructureData<CardApplicationData>,
                       ghost apps: seq<CardApplication>)
    returns (failure: Option<Failure>)
    requires |doc.applicationList| == |apps|
    requires forall j :: 0 <= j < |apps| ==>
      Analysed(doc.applicationList[j], apps[j], bytesToLong)
    modifies doc`applicationList
    ensures failure.None? <==> AllAnalysable(card.select(aid))
    ensures failure.None? ==>
      |doc.applicationList| == |apps + card.select(aid)|
      && forall j :: 0 <= j < |apps + card.select(aid)| ==>
           Analysed(doc.applicationList[j], (apps + card.select(aid))[j], bytesToLong)
  {
    ghost var before := doc.applicationList;
    failure := GetApplicationsData(card, aid, bytesToLong, doc);
    if failure.None? {
      assert forall j :: 0 <= j < |apps| ==> Analysed(before[j], apps[j], bytesToLong);
      assert forall j :: 0 <= j < |apps| ==> doc.applicationList[j] == before[j];
      AppsAnalysedConcat(doc.applicationList, apps, card.select(aid), bytesToLong);
    }
  }
}
