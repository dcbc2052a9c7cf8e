/** The discovery traversal of the newer analyzer (`org.calypsonet` `Tool_AnalyzeCardFileStructure`):
    it walks the file table of each application the card holds, reads the records it is allowed
    to read, and gathers one descriptor per application into the document it writes. The card is
    the oracle `CardApi.Card`; an exception the tool does not catch ends the run, which the
    methods report as a `Failure`. The specification functions at the top are shared with the
    older analyzer, whose walk and read rules are the same. */
module Analyzer {
  import opened Wrappers
  import opened JavaText
  import opened ToolUtils
  import opened CardApi
  import opened Records
  import opened CardData
  import opened AnalyzerSpec

  // ---------------------------------------------------------------- the file-table walk

  /** `fillFilesTable`: FIRST_EF, then NEXT_EF while the table grows by exactly one file; status
      errors and failed file selections are caught and end the walk, any other exception ends the
      analysis. The result is the file table the walk leaves. */
  method FillFilesTable(app: CardApplication) returns (r: Result<seq<ElementaryFile>, Failure>)
    ensures r == if WalkAborts(app) then Failure(SelectFileFailed) else Success(WalkFiles(app))
  {
    var files: seq<ElementaryFile> := [];
    var first := EfSelection(app, 0);
    if first.SelectOtherError? {
      return Failure(SelectFileFailed);
    }
    if !first.Selected? {
      return Success(files);
    }
    files := first.table;
    if |files| != 1 {
      return Success(files);
    }
    var numberOfFiles := 1;
    while true
      invariant numberOfFiles >= 1 && Walk(app) == WalkFrom(app, numberOfFiles, files)
      decreases |app.efSelections| - numberOfFiles
    {
      numberOfFiles := numberOfFiles + 1;
      var outcome := EfSelection(app, numberOfFiles - 1);
      if outcome.SelectOtherError? {
        return Failure(SelectFileFailed);
      }
      if !outcome.Selected? {
        return Success(files);
      }
      files := outcome.table;
      if |files| != numberOfFiles {
        return Success(files);
      }
    }
  }

  // ---------------------------------------------------------------- reading records

  /** The read loop of `getFileData`: records 1 to recordsNumber, in order, each appended to the
      descriptor as soon as it is read; a failed READ RECORD is not caught, and leaves the
      records read before it in place. */
  method ReadRecords(file: ElementaryFile, app: CardApplication, fileData: CardFileData)
    returns (ok: bool)
    requires ReadsRecords(file) && fileData.recordDataList == []
    modifies fileData
    ensures ok <==> RecordsRead(file, app).Some?
    ensures ok ==> Some(fileData.recordDataList) == RecordsRead(file, app)
  {
    var i := 0;
    while i < file.header.recordsNumber
      invariant 0 <= i && (i <= file.header.recordsNumber || i == 0)
      invariant ReadUpTo(file, app, i) == Some(fileData.recordDataList)
    {
      var content := app.readRecord(file.sfi, ToJByte(i + 1));
      if content.None? {
        ReadUpToFailurePersists(file, app, i + 1, file.header.recordsNumber);
        return false;
      }
      var record := MakeRecord(i + 1, content.value);
      fileData.AppendRecord(record);
      i := i + 1;
    }
    return true;
  }

  /** `getFileData`: the descriptor of `file`, with its records when the read predicate allows;
      a failed READ RECORD is not caught. */
  method GetFileData(file: ElementaryFile, app: CardApplication) returns (r: Result<CardFileData, Failure>)
    ensures r.Success? <==> RecordsRead(file, app).Some?
    ensures r.Success? ==> fresh(r.value) && FileAnalysed(r.value, file, app)
    ensures r.Failure? ==> r.error == ReadRecordFailed
  {
    var fileData := new CardFileData(file);
    if ReadsRecords(file) {
      var ok := ReadRecords(file, app, fileData);
      if !ok {
        return Failure(ReadRecordFailed);
      }
    }
    return Success(fileData);
  }

  // ---------------------------------------------------------------- applications

  /** The loop of `getApplicationData` over the file table `files`: one descriptor per file,
      appended in table order; the first failed read ends it. */
  method ReadFiles(files: seq<ElementaryFile>, app: CardApplication,
                   cardAppData: CardApplicationData)
    returns (ok: bool)
    requires cardAppData.fileList == []
    modifies cardAppData
    ensures ok <==> FilesReadable(files, app)
    ensures ok ==> |cardAppData.fileList| == |files|
                   && FilesAnalysed(cardAppData.fileList, files, app)
  {
    var k := 0;
    while k < |files|
      invariant 0 <= k <= |files| && |cardAppData.fileList| == k
      invariant FilesAnalysed(cardAppData.fileList, files, app)
      invariant forall i :: 0 <= i < k ==> RecordsRead(files[i], app).Some?
    {
      ok := AddFileData(files, app, cardAppData);
      if !ok {
        return false;
      }
      k := k + 1;
    }
    return true;
  }

  /** One turn of the loop over the file table: the descriptor of the next file, with its
      records, is appended to the application's file list. */
  method AddFileData(files: seq<ElementaryFile>, app: CardApplication,
                     cardAppData: CardApplicationData)
    returns (ok: bool)
    requires |cardAppData.fileList| < |files|
    requires FilesAnalysed(cardAppData.fileList, files, app)
    modifies cardAppData
    ensures ok <==> RecordsRead(files[old(|cardAppData.fileList|)], app).Some?
    ensures ok ==> |cardAppData.fileList| == old(|cardAppData.fileList|) + 1
                   && FilesAnalysed(cardAppData.fileList, files, app)
  {
    var fileData := GetFileData(files[|cardAppData.fileList|], app);
    if fileData.Failure? {
      return false;
    }
    AppendAnalysed(files, app, cardAppData, fileData.value);
    return true;
  }

  /** Appends the descriptor of the next file to the application's file list. */
  method AppendAnalysed(files: seq<ElementaryFile>, app: CardApplication,
                        cardAppData: CardApplicationData, f: CardFileData)
    requires |cardAppData.fileList| < |files|
    requires FilesAnalysed(cardAppData.fileList, files, app)
    requires FileAnalysed(f, files[|cardAppData.fileList|], app)
    modifies cardAppData
    ensures cardAppData.fileList == old(cardAppData.fileList) + [f]
    ensures FilesAnalysed(cardAppData.fileList, files, app)
  {
    ghost var before := cardAppData.fileList;
    cardAppData.AppendFile(f);
    assert FilesAnalysed(before, files, app);
    assert FileAnalysed(f, files[|before|], app);
    FilesAnalysedAppend(before, files, app, f);
  }

  /** `getApplicationData(aid)`: selects the FIRST occurrence of `aid` (a failed selection leaves
      no card to work on, and the transaction set up on it fails), selects the current DF, walks
      the file table and reads every file of the table it leaves. */
  method GetApplicationData(card: Card, aid: string, extractLong: seq<JByte> -> int)
    returns (r: Result<CardApplicationData, Failure>)
    ensures r.Success? <==> |card.select(aid)| > 0 && Analysable(card.select(aid)[0])
    ensures r.Success? ==> fresh(r.value) && Analysed(r.value, card.select(aid)[0], extractLong)
    ensures r.Failure? ==> r.error == (if |card.select(aid)| == 0 then NoActiveCard
                                       else if !card.select(aid)[0].currentDfSucceeds
                                       then CurrentDfFailed
                                       else if WalkAborts(card.select(aid)[0])
                                       then SelectFileFailed
                                       else ReadRecordFailed)
  {
    var selected := card.select(aid);
    if |selected| == 0 {
      return Failure(NoActiveCard);
    }
    var app := selected[0];
    if !app.currentDfSucceeds {
      return Failure(CurrentDfFailed);
    }
    var cardAppData := new CardApplicationData(app.card, extractLong);
    var walk := FillFilesTable(app);
    if walk.Failure? {
      return Failure(walk.error);
    }
    var ok := ReadFiles(walk.value, app, cardAppData);
    if !ok {
      return Failure(ReadRecordFailed);
    }
    return Success(cardAppData);
  }

  /** The collecting loop of `getApplicationsData`. */
  method CollectDfNames(card: Card, aidPrefix: string) returns (aids: seq<string>)
    ensures aids == DfNames(card, aidPrefix)
  {
    aids := [];
    var occurrences := card.select(aidPrefix);
    var k := 0;
    while k < |occurrences|
      invariant 0 <= k <= |occurrences| && aids == DfNames(card, aidPrefix)[..k]
    {
      aids := aids + [ToHexBytes(occurrences[k].card.dfName)];
      k := k + 1;
    }
    assert DfNames(card, aidPrefix)[..k] == DfNames(card, aidPrefix);
  }

  /** `getApplicationsData`: appends to the document's list one descriptor per collected name,
      each obtained by re-selecting that name with FIRST occurrence; earlier entries are not
      touched. The result is the exception that ends the run, if any. */
  method GetApplicationsData(card: Card, aidPrefix: string, extractLong: seq<JByte> -> int,
                             doc: CardStructureData<CardApplicationData>)
    returns (failure: Option<Failure>)
    modifies doc`applicationList
    ensures failure.None? <==> AllAnalysable(card, DfNames(card, aidPrefix))
    ensures failure.None? ==>
      |doc.applicationList| == |old(doc.applicationList)| + |DfNames(card, aidPrefix)|
      && (forall j :: 0 <= j < |old(doc.applicationList)| ==>
            doc.applicationList[j] == old(doc.applicationList)[j])
      && (forall j :: 0 <= j < |DfNames(card, aidPrefix)| ==>
            AppAnalysed(doc.applicationList[|old(doc.applicationList)| + j], card,
                        DfNames(card, aidPrefix)[j], extractLong))
  {
    var aids := CollectDfNames(card, aidPrefix);
    assert doc.applicationList == old(doc.applicationList);
    failure := GetApplicationsOf(card, aids, extractLong, doc);
  }

  /** The second loop of `getApplicationsData`: one descriptor per name, appended in order. */
  method GetApplicationsOf(card: Card, aids: seq<string>, extractLong: seq<JByte> -> int,
                           doc: CardStructureData<CardApplicationData>)
    returns (failure: Option<Failure>)
    modifies doc`applicationList
    ensures failure.None? <==> AllAnalysable(card, aids)
    ensures failure.None? ==>
      |doc.applicationList| == |old(doc.applicationList)| + |aids|
      && (forall j :: 0 <= j < |old(doc.applicationList)| ==>
            doc.applicationList[j] == old(doc.applicationList)[j])
      && (forall j :: 0 <= j < |aids| ==>
            AppAnalysed(doc.applicationList[|old(doc.applicationList)| + j], card, aids[j],
                        extractLong))
  {
    ghost var base := |doc.applicationList|;
    var k := 0;
    while k < |aids|
      invariant 0 <= k <= |aids| && |doc.applicationList| == base + k
      invariant forall j :: 0 <= j < k ==>
        |card.select(aids[j])| > 0 && Analysable(card.select(aids[j])[0])
      invariant forall j :: 0 <= j < base ==>
        doc.applicationList[j] == old(doc.applicationList)[j]
      invariant forall j :: 0 <= j < k ==>
        AppAnalysed(doc.applicationList[base + j], card, aids[j], extractLong)
    {
      failure := AddApplicationData(card, aids, base, k, extractLong, doc);
      if failure.Some? {
        return;
      }
      k := k + 1;
    }
    return None;
  }

  /** One turn of the second loop of `getApplicationsData`: the descriptor of the k-th name is
      appended after those of the names before it, or the exception that ends the run is
      returned. */
  method AddApplicationData(card: Card, aids: seq<string>, ghost base: nat, k: nat,
                            extractLong: seq<JByte> -> int,
                            doc: CardStructureData<CardApplicationData>)
    returns (failure: Option<Failure>)
    requires k < |aids| && |doc.applicationList| == base + k
    requires forall j :: 0 <= j < k ==>
      AppAnalysed(doc.applicationList[base + j], card, aids[j], extractLong)
    modifies doc`applicationList
    ensures failure.None? <==> |card.select(aids[k])| > 0 && Analysable(card.select(aids[k])[0])
    ensures failure.None? ==>
      |doc.applicationList| == base + k + 1
      && (forall j :: 0 <= j < base + k ==> doc.applicationList[j] == old(doc.applicationList)[j])
      && (forall j :: 0 <= j < k + 1 ==>
            AppAnalysed(doc.applicationList[base + j], card, aids[j], extractLong))
  {
    var app := GetApplicationData(card, aids[k], extractLong);
    if app.Failure? {
      return Some(app.error);
    }
    AppendApplication(doc, app.value, card, aids, base, k, extractLong);
    return None;
  }

  /** `cardAppDataList.add(getApplicationData(aid))` for the k-th collected name. */
  method AppendApplication(doc: CardStructureData<CardApplicationData>, a: CardApplicationData,
                           card: Card, ghost aids: seq<string>, ghost base: nat, ghost k: nat,
                           extractLong: seq<JByte> -> int)
    requires |doc.applicationList| == base + k && k < |aids|
    requires forall j :: 0 <= j < k ==>
      AppAnalysed(doc.applicationList[base + j], card, aids[j], extractLong)
    requires AppAnalysed(a, card, aids[k], extractLong)
    modifies doc`applicationList
    ensures doc.applicationList == old(doc.applicationList) + [a]
    ensures forall j :: 0 <= j < k + 1 ==>
      AppAnalysed(doc.applicationList[base + j], card, aids[j], extractLong)
  {
    ghost var before := doc.applicationList;
    doc.AppendApplications([a]);
    assert forall j :: 0 <= j < k ==>
      AppAnalysed(before[base + j], card, aids[j], extractLong);
    assert AppAnalysed(a, card, aids[k], extractLong);
    forall j | 0 <= j < k + 1
      ensures AppAnalysed(doc.applicationList[base + j], card, aids[j], extractLong)
    {
      if j < k {
        assert doc.applicationList[base + j] == before[base + j];
      } else {
        assert doc.applicationList[base + j] == a;
      }
    }
  }

  // ---------------------------------------------------------------- traceability

  /** `getTraceabilityInfo`: the traceability of the application the first selecting prefix
      reaches; a status error on GET DATA is only a warning, any other failure is not caught;
      `None` (Java `null`) when no prefix selects. Later prefixes are never tried. */
  method GetTraceabilityInfo(card: Card, aidPrefixList: seq<string>)
    returns (r: Result<Option<seq<JByte>>, Failure>)
    ensures FirstSelecting(card, aidPrefixList).None? ==> r == Success(None)
    ensures FirstSelecting(card, aidPrefixList).Some? ==>
      var app := card.select(aidPrefixList[FirstSelecting(card, aidPrefixList).value])[0];
      r == if app.getData == DataOtherError then Failure(GetDataFailed)
           else Success(app.traceability)
  {
    var k := 0;
    while k < |aidPrefixList|
      invariant 0 <= k <= |aidPrefixList|
      invariant forall j :: 0 <= j < k ==> |card.select(aidPrefixList[j])| == 0
    {
      var selected := card.select(aidPrefixList[k]);
      if |selected| > 0 {
        FirstSelectingIs(card, aidPrefixList, k);
        var app := selected[0];
        if app.getData == DataOtherError {
          return Failure(GetDataFailed);
        }
        return Success(app.traceability);
      }
      k := k + 1;
    }
    FirstSelectingNone(card, aidPrefixList);
    return Success(None);
  }

  // ---------------------------------------------------------------- the tool's run

  /** How a run of the tool ends. */
  datatype Outcome =
    | NoCard                            // "No card is present in the reader."
    | NoApplications                    // no prefix selects: "No applications found."
    | Aborted(failure: Failure)         // an exception nobody catches
    | Unnamed(doc: CardStructureData<CardApplicationData>)
        // no application was gathered: reading application 0 fails, the error is logged
    | Written(doc: CardStructureData<CardApplicationData>, fileName: string)

  /** `main` once the reader is set up, with the prefix list it builds. `creationDate` and
      `dateString` are the two formatted readings of the clock. */
  method AnalyzeCard(isCardPresent: bool, card: Card, extractLong: seq<JByte> -> int,
                     creationDate: string, dateString: string)
    returns (r: Outcome)
    ensures !isCardPresent <==> r == NoCard
    ensures isCardPresent ==>
      (r == NoApplications <==> GetTraceabilityInfoSpec(card, AidPrefixList) == Success(None))
    ensures isCardPresent && GetTraceabilityInfoSpec(card, AidPrefixList).Failure? ==>
      r == Aborted(GetDataFailed)
    ensures isCardPresent && GetTraceabilityInfoSpec(card, AidPrefixList).Success?
            && GetTraceabilityInfoSpec(card, AidPrefixList).value.Some? ==>
      (r.Aborted? <==> !AllAnalysable(card, AllDfNames(card, AidPrefixList)))
    ensures r.Unnamed? || r.Written? ==>
      fresh(r.doc) && GetTraceabilityInfoSpec(card, AidPrefixList).Success?
      && GetTraceabilityInfoSpec(card, AidPrefixList).value == Some(r.doc.traceability)
      && r.doc.infos == "AnalyzeCardFileStructure" && r.doc.date == creationDate
      && r.doc.version == 2 && r.doc.software == "Calypso Card Analyzer"
      && AllAnalysable(card, AllDfNames(card, AidPrefixList))
      && |r.doc.applicationList| == |AllDfNames(card, AidPrefixList)|
      && forall j :: 0 <= j < |AllDfNames(card, AidPrefixList)| ==>
           AppAnalysed(r.doc.applicationList[j], card, AllDfNames(card, AidPrefixList)[j],
                       extractLong)
    ensures r.Unnamed? ==> r.doc.applicationList == [] && r.doc.id == None
    ensures r.Written? ==>
      r.doc.applicationList != []
      && r.fileName == ReportFileName(dateString, r.doc.applicationList[0].csnDec)
      && r.doc.id == Some(r.fileName)
  {
    r := AnalyzeCardWith(isCardPresent, card, AidPrefixList, extractLong, creationDate, dateString);
  }

  /** The run of `main` over a list of prefixes: the traceability probe, then the document, then
      its name. */
  method AnalyzeCardWith(isCardPresent: bool, card: Card, aidPrefixList: seq<string>,
                         extractLong: seq<JByte> -> int, creationDate: string, dateString: string)
    returns (r: Outcome)
    ensures !isCardPresent <==> r == NoCard
    ensures isCardPresent ==>
      (r == NoApplications <==> GetTraceabilityInfoSpec(card, aidPrefixList) == Success(None))
    ensures isCardPresent && GetTraceabilityInfoSpec(card, aidPrefixList).Failure? ==>
      r == Aborted(GetDataFailed)
    ensures isCardPresent && GetTraceabilityInfoSpec(card, aidPrefixList).Success?
            && GetTraceabilityInfoSpec(card, aidPrefixList).value.Some? ==>
      (r.Aborted? <==> !AllAnalysable(card, AllDfNames(card, aidPrefixList)))
    ensures r.Unnamed? || r.Written? ==>
      fresh(r.doc) && GetTraceabilityInfoSpec(card, aidPrefixList).Success?
      && GetTraceabilityInfoSpec(card, aidPrefixList).value == Some(r.doc.traceability)
      && r.doc.infos == "AnalyzeCardFileStructure" && r.doc.date == creationDate
      && r.doc.version == 2 && r.doc.software == "Calypso Card Analyzer"
      && AllAnalysable(card, AllDfNames(card, aidPrefixList))
      && |r.doc.applicationList| == |AllDfNames(card, aidPrefixList)|
      && forall j :: 0 <= j < |AllDfNames(card, aidPrefixList)| ==>
           AppAnalysed(r.doc.applicationList[j], card, AllDfNames(card, aidPrefixList)[j],
                       extractLong)
    ensures r.Unnamed? ==> r.doc.applicationList == [] && r.doc.id == None
    ensures r.Written? ==>
      r.doc.applicationList != []
      && r.fileName == ReportFileName(dateString, r.doc.applicationList[0].csnDec)
      && r.doc.id == Some(r.fileName)
  {
    if !isCardPresent {
      return NoCard;
    }
    var traceabilityInfo := GetTraceabilityInfo(card, aidPrefixList);
    if traceabilityInfo.Failure? {
      return Aborted(traceabilityInfo.error);
    }
    if traceabilityInfo.value.None? {
      return NoApplications;
    }
    var doc := new CardStructureData<CardApplicationData>(
      traceabilityInfo.value.value, "AnalyzeCardFileStructure", creationDate, 2,
      "Calypso Card Analyzer");
    var failure := GatherApplications(card, aidPrefixList, extractLong, doc);
    if failure.Some? {
      return Aborted(failure.value);
    }
    if |doc.applicationList| == 0 {
      return Unnamed(doc);
    }
    var fileName := ReportFileName(dateString, doc.applicationList[0].csnDec);
    doc.SetId(fileName);
    return Written(doc, fileName);
  }

  /** The loop of `main` over the prefixes: `getApplicationsData` for each, in order, on a
      document whose list starts empty. It stops at the first exception. */
  method GatherApplications(card: Card, aidPrefixList: seq<string>, extractLong: seq<JByte> -> int,
                            doc: CardStructureData<CardApplicationData>)
    returns (failure: Option<Failure>)
    requires doc.applicationList == []
    modifies doc`applicationList
    ensures failure.None? <==> AllAnalysable(card, AllDfNames(card, aidPrefixList))
    ensures failure.None? ==>
      |doc.applicationList| == |AllDfNames(card, aidPrefixList)|
      && forall j :: 0 <= j < |AllDfNames(card, aidPrefixList)| ==>
           AppAnalysed(doc.applicationList[j], card, AllDfNames(card, aidPrefixList)[j],
                       extractLong)
  {
    var k := 0;
    ghost var names: seq<string> := [];
    while k < |aidPrefixList|
      invariant 0 <= k <= |aidPrefixList| && names == AllDfNames(card, aidPrefixList[..k])
      invariant AllAnalysable(card, names) && |doc.applicationList| == |names|
      invariant forall j :: 0 <= j < |names| ==>
        AppAnalysed(doc.applicationList[j], card, names[j], extractLong)
    {
      failure := AnalyzePrefix(card, aidPrefixList[k], extractLong, doc, names);
      assert aidPrefixList[..k + 1][..k] == aidPrefixList[..k];
      AllAnalysableConcat(card, names, DfNames(card, aidPrefixList[k]));
      if failure.Some? {
        if AllAnalysable(card, AllDfNames(card, aidPrefixList)) {
          AllAnalysablePrefix(card, aidPrefixList, k + 1);
        }
        return;
      }
      names := names + DfNames(card, aidPrefixList[k]);
      k := k + 1;
    }
    assert aidPrefixList[..k] == aidPrefixList;
    return None;
  }

  /** One turn of the loop over the prefixes: `getApplicationsData` for `aidPrefix`, whose
      descriptors follow those gathered for the earlier `names`. */
  method AnalyzePrefix(card: Card, aidPrefix: string, extractLong: seq<JByte> -> int,
                       doc: CardStructureData<CardApplicationData>, ghost names: seq<string>)
    returns (failure: Option<Failure>)
    requires |doc.applicationList| == |names|
    requires forall j :: 0 <= j < |names| ==>
      AppAnalysed(doc.applicationList[j], card, names[j], extractLong)
    modifies doc`applicationList
    ensures failure.None? <==> AllAnalysable(card, DfNames(card, aidPrefix))
    ensures failure.None? ==>
      |doc.applicationList| == |names + DfNames(card, aidPrefix)|
      && forall j :: 0 <= j < |names + DfNames(card, aidPrefix)| ==>
           AppAnalysed(doc.applicationList[j], card, (names + DfNames(card, aidPrefix))[j],
                       extractLong)
  {
    ghost var before := doc.applicationList;
    failure := GetApplicationsData(card, aidPrefix, extractLong, doc);
    if failure.None? {
      assert forall j :: 0 <= j < |names| ==>
        AppAnalysed(before[j], card, names[j], extractLong);
      assert forall j :: 0 <= j < |names| ==> doc.applicationList[j] == before[j];
      AppsAnalysedConcat(doc.applicationList, card, names, DfNames(card, aidPrefix), extractLong);
    }
  }
}
