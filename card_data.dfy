/** The data records of the newer tool generation (`org.calypsonet.tool.calypso.carddata`):
    the descriptors the analyzer builds from the card's headers, and the views of them the check
    tool compares. When a structure is loaded from a reference document any of its strings may
    be missing, so the views carry `Option` fields; the objects the analyzer builds fill them all. */
module CardData {
  import opened Wrappers
  import opened JavaText
  import opened ToolUtils
  import opened CardApi
  import opened Records

  // ---------------------------------------------------------------- AccessConditions

  /** One access-condition group (`AccessConditions.AccessCondition`). */
  datatype AccessCondition = AccessCondition(
    accessCondition: Option<string>,
    keyLevel: Option<string>,
    description: Option<string>)

  /** The constructor: both bytes are stored in hexadecimal; the description is the long name
      of the condition (the constructor reads it back from the two strings, which gives the
      same name, see `NewAccessConditionDescribed`). */
  function NewAccessCondition(ac: JByte, keyLevel: JByte): (r: AccessCondition)
    ensures r.accessCondition.Some? && r.keyLevel.Some? && r.description.Some?
  {
    AccessCondition(Some(ToHexByte(ac)), Some(ToHexByte(keyLevel)),
                    Some(AcName(UByte(ac), UByte(keyLevel), true)))
  }

  /** The stored strings parse back to the two bytes, and the name read back from them, as
      `getAcName(String, String, true)` does, is the description. */
  lemma NewAccessConditionDescribed(ac: JByte, keyLevel: JByte)
    ensures var g := NewAccessCondition(ac, keyLevel);
      ParseHex(g.accessCondition.value) == Some(UByte(ac))
      && ParseHex(g.keyLevel.value) == Some(UByte(keyLevel))
      && AcNameOfStrings(g.accessCondition.value, g.keyLevel.value, true) == g.description
  {
    ToHexByteValue(ac);
    ToHexByteValue(keyLevel);
    AcNameOfHexBytes(ac, keyLevel, true);
  }

  /** The four groups of a file or DF (`AccessConditions`). */
  datatype AccessConditions = AccessConditions(
    group0: AccessCondition,
    group1: AccessCondition,
    group2: AccessCondition,
    group3: AccessCondition)

  /** `getGroup0` ... `getGroup3`. */
  function Group(acs: AccessConditions, k: nat): AccessCondition
    requires k < 4
  {
    if k == 0 then acs.group0 else if k == 1 then acs.group1 else if k == 2 then acs.group2
    else acs.group3
  }

  /** The constructor: group k is built from entry k of both arrays. */
  function NewAccessConditions(acs: Quad, keyLevels: Quad): (r: AccessConditions)
  {
    AccessConditions(
      NewAccessCondition(acs[0], keyLevels[0]),
      NewAccessCondition(acs[1], keyLevels[1]),
      NewAccessCondition(acs[2], keyLevels[2]),
      NewAccessCondition(acs[3], keyLevels[3]))
  }

  /** Group k describes entry k of both arrays: its strings parse back to the two bytes and
      its description is the name read back from them. */
  lemma NewAccessConditionsDescribed(acs: Quad, keyLevels: Quad, k: nat)
    requires k < 4
    ensures var g := Group(NewAccessConditions(acs, keyLevels), k);
      g == NewAccessCondition(acs[k], keyLevels[k])
      && ParseHex(g.accessCondition.value) == Some(UByte(acs[k]))
      && ParseHex(g.keyLevel.value) == Some(UByte(keyLevels[k]))
      && AcNameOfStrings(g.accessCondition.value, g.keyLevel.value, true) == g.description
  {
    NewAccessConditionDescribed(acs[k], keyLevels[k]);
  }

  // ---------------------------------------------------------------- FileReference

  /** A cross-reference between two files, as the check tool records it (`FileReference`): the
      LID of the file that holds the reference, the LID of the file it names, the value read,
      and whether the named file has been seen with that value. The constructor leaves the flag
      unset; `setReferenceFoundFlag` is an update of the flag. */
  datatype FileReference = FileReference(baseFileLid: Option<string>, linkedFileLid: Option<string>,
                                         refValueRead: Option<string>, referenceFoundFlag: bool)

  // ---------------------------------------------------------------- CardFileData

  /** The fields of a file descriptor the check tool compares (through `getSfi`, `getLid`,
      `getEfType`, `getRecSize`, `getNumRec`, `getAccessConditions` and `getDataRef`). */
  datatype FileView = FileView(
    sfi: Option<string>,
    lid: Option<string>,
    efType: Option<string>,
    recSize: Option<string>,
    numRec: Option<string>,
    accessConditions: AccessConditions,
    dataRef: Option<string>)

  /** The descriptor of one elementary file (`CardFileData`). The constructor's field mapping
      is written as the definitions of the fixed fields, over the file-table entry `fileInfo`
      the descriptor is built from: the LID, SFI, type code, record count and shared reference
      in hexadecimal, the record size in decimal on at least four digits, both counts also as
      numbers, and the four access groups. The record list is the only part that changes after
      construction: the analyzer appends the records it reads. */
  class CardFileData {
    const fileInfo: ElementaryFile
    const sfi: string := ToHexByte(fileInfo.sfi)
    const lid: string := ToHexShort(fileInfo.header.lid)
    const efType: string := ToHexInt(EfTypeIntValue(fileInfo.header.efType))
    const ref: string := ToHexShort(fileInfo.header.sharedReference)
    const recSize: string := PadLeftSpec(Decimal(fileInfo.header.recordSize), 4, '0')
    const recSizeDec: JInt := fileInfo.header.recordSize
    const numRec: string := ToHexInt(fileInfo.header.recordsNumber)
    const numRecDec: JInt := fileInfo.header.recordsNumber
    const accessConditions: AccessConditions :=
      NewAccessConditions(fileInfo.header.accessConditions, fileInfo.header.keyIndexes)
    var recordDataList: seq<RecordData>

    constructor (fileInfo: ElementaryFile)
      ensures this.fileInfo == fileInfo && recordDataList == []
    {
      this.fileInfo := fileInfo;
      recordDataList := [];
    }

    /** `getRecordDataList().add(record)`. */
    method AppendRecord(record: RecordData)
      modifies this
      ensures recordDataList == old(recordDataList) + [record]
    {
      recordDataList := recordDataList + [record];
    }

    /** What the check tool reads of this descriptor, the `read` side of its comparisons: every
        field is present, as written, and so is each group's access condition. */
    function View(): (v: FileView)
      ensures v.sfi == Some(sfi) && v.lid == Some(lid) && v.dataRef == Some(ref)
      ensures v.efType == Some(efType) && v.recSize == Some(recSize) && v.numRec == Some(numRec)
      ensures v.accessConditions == accessConditions
      ensures v.accessConditions.group0.accessCondition.Some?
              && v.accessConditions.group1.accessCondition.Some?
              && v.accessConditions.group2.accessCondition.Some?
              && v.accessConditions.group3.accessCondition.Some?
    {
      FileView(Some(sfi), Some(lid), Some(efType), Some(recSize), Some(numRec), accessConditions,
               Some(ref))
    }
  }

  /** What the check tool reads back from a descriptor: the LID, SFI and shared reference are
      four, two and four digits long and parse to the entry's values, the type code names the
      file's type, the record count parses to the entry's count when that count is not
      negative, and the record size is written on at least four characters. */
  lemma FileFieldsDecode(f: CardFileData)
    ensures var header := f.fileInfo.header;
      && |f.lid| == 4 && |f.sfi| == 2 && |f.ref| == 4 && |f.recSize| >= 4
      && ParseHex(f.lid) == Some(UShort(header.lid))
      && ParseHex(f.sfi) == Some(UByte(f.fileInfo.sfi))
      && ParseHex(f.ref) == Some(UShort(header.sharedReference))
      && EfTypeNameOfString(f.efType, true) == Some(EfTypeName(EfTypeIntValue(header.efType), true))
      && (header.recordsNumber >= 0 ==> ParseHex(f.numRec) == Some(header.recordsNumber))
  {
    var header := f.fileInfo.header;
    ToHexShortValue(header.lid);
    ToHexByteValue(f.fileInfo.sfi);
    ToHexShortValue(header.sharedReference);
    ToHexIntValue(EfTypeIntValue(header.efType));
    ToHexIntValue(header.recordsNumber);
  }

  /** `recSize` is decimal: for a record size below 10000 it is exactly four digits whose
      decimal value is the size (29 is written "0029", not the hexadecimal "001D"). */
  lemma RecSizeIsDecimal(recordSize: JInt)
    requires 0 <= recordSize < 10000
    ensures var s := PadLeftSpec(Decimal(recordSize), 4, '0');
      |s| == 4 && (forall i :: 0 <= i < 4 ==> IsDecDigit(s[i])) && DecValue(s) == recordSize
  {
    var d := DecOf(recordSize);
    DecOfLength(recordSize);
    var s := PadLeftSpec(d, 4, '0');
    var k := 4 - |d|;
    assert s == Zeros(k) + d by {
      if k > 0 {
        assert s == Repeat('0', k) + d;
        RepeatAt('0', k);
        ZerosAreZeros(k);
        assert Repeat('0', k) == Zeros(k);
      }
    }
    DecValueOfDecOf(recordSize);
    DecValueLeadingZeros(k, d);
  }

  lemma {:induction false} DecOfLength(n: nat)
    requires n < 10000
    ensures |DecOf(n)| <= 4
  {
    if n >= 10 {
      DecOfShorter(n);
    }
  }

  lemma {:induction false} DecOfShorter(n: nat)
    ensures n < 10 ==> |DecOf(n)| == 1
    ensures n < 100 ==> |DecOf(n)| <= 2
    ensures n < 1000 ==> |DecOf(n)| <= 3
    ensures n < 10000 ==> |DecOf(n)| <= 4
    decreases n
  {
    if n >= 10 {
      DecOfShorter(n / 10);
    }
  }

  /** Leading zeros keep a string of decimal digits decimal. */
  lemma ZerosThenDigits(k: nat, s: string)
    requires forall i :: 0 <= i < |s| ==> IsDecDigit(s[i])
    ensures forall i :: 0 <= i < |Zeros(k) + s| ==> IsDecDigit((Zeros(k) + s)[i])
  {
    var z := Zeros(k) + s;
    ZerosAreZeros(k);
    forall i | 0 <= i < |z| ensures IsDecDigit(z[i]) {
      if i < k { assert z[i] == '0'; } else { assert z[i] == s[i - k]; }
    }
  }

  /** Leading zeros do not change the decimal value. */
  lemma {:induction false} DecValueLeadingZeros(k: nat, s: string)
    requires forall i :: 0 <= i < |s| ==> IsDecDigit(s[i])
    ensures forall i :: 0 <= i < |Zeros(k) + s| ==> IsDecDigit((Zeros(k) + s)[i])
    ensures DecValue(Zeros(k) + s) == DecValue(s)
    decreases |s|, k
  {
    ZerosThenDigits(k, s);
    var z := Zeros(k) + s;
    if s == [] {
      assert z == Zeros(k);
      if k > 0 {
        assert z[..|z| - 1] == Zeros(k - 1) + [];
        DecValueLeadingZeros(k - 1, []);
      }
    } else {
      assert z[..|z| - 1] == Zeros(k) + s[..|s| - 1];
      DecValueLeadingZeros(k, s[..|s| - 1]);
    }
  }

  // ---------------------------------------------------------------- CardApplicationData

  /** The software issuer of an application (`CardApplicationData.Issuer`). */
  datatype Issuer = Issuer(value: string, name: string)

  /** The constructor: the byte in hexadecimal and its issuer name. */
  function NewIssuer(b: JByte): (r: Issuer)
    ensures r.value == ToHexByte(b) && r.name == IssuerName(b)
  {
    Issuer(ToHexByte(b), IssuerName(b))
  }

  /** `getSessionBufferSize`: the session buffer size, in bytes, of a session-modification
      value; 0 for a value the table does not list. */
  function SessionBufferSize(sessionModification: int): (r: int)
    ensures 6 <= sessionModification <= 15 <==> r != 0
    ensures r != 0 ==> 215 <= r <= 1024
  {
    match sessionModification
    case 6 => 215
    case 7 => 256
    case 8 => 304
    case 9 => 362
    case 10 => 430
    case 11 => 512
    case 12 => 608
    case 13 => 724
    case 14 => 861
    case 15 => 1024
    case _ => 0
  }

  /** More session modifications always mean a larger buffer. */
  lemma SessionBufferSizeIncreasing(a: int, b: int)
    requires 6 <= a < b <= 15
    ensures SessionBufferSize(a) < SessionBufferSize(b)
  {
  }

  /** The fields of an application descriptor the check tool compares. */
  datatype AppView = AppView(
    aid: seq<JByte>,
    calypsoRevision: Option<string>,
    sessionModif: Option<string>,
    applicationType: Option<string>,
    applicationSubtype: Option<string>,
    kif1: Option<string>, kif2: Option<string>, kif3: Option<string>,
    kvc1: Option<string>, kvc2: Option<string>, kvc3: Option<string>,
    lid: Option<string>,
    accessConditions: AccessConditions,
    fileList: seq<FileView>)

  /** The views of a file list, in order: what the check tool reads of the files of a
      discovered application. */
  function FileViews(files: seq<CardFileData>): seq<FileView> {
    seq(|files|, i requires 0 <= i < |files| => files[i].View())
  }

  /** What the check tool reads back from an application descriptor: the session modification
      is "00" and the byte's two digits, it parses to the byte's unsigned value, and so do the
      key identifiers and versions and the LID; the issuer is the name of the issuer byte. */
  lemma AppFieldsDecode(a: CardApplicationData)
    ensures var dir := a.appData.directoryHeader;
      && a.sessionModif == "00" + ToHexByte(a.appData.sessionModification)
      && ParseHex(a.sessionModif) == Some(UByte(a.appData.sessionModification))
      && a.issuer.name == IssuerName(a.appData.softwareIssuer)
      && ParseHex(a.kif1) == Some(UByte(dir.kifPersonalization))
      && ParseHex(a.kif2) == Some(UByte(dir.kifLoad))
      && ParseHex(a.kif3) == Some(UByte(dir.kifDebit))
      && ParseHex(a.kvc1) == Some(UByte(dir.kvcPersonalization))
      && ParseHex(a.kvc2) == Some(UByte(dir.kvcLoad))
      && ParseHex(a.kvc3) == Some(UByte(dir.kvcDebit))
      && ParseHex(a.lid) == Some(UShort(dir.lid))
  {
    var dir := a.appData.directoryHeader;
    var sm := a.appData.sessionModification;
    SessionModifIsPaddedByte(sm);
    ToHexByteValue(sm);
    var h := ToHexByte(sm);
    assert HexValue("00" + h) == HexValue(h) by {
      assert "00" + h == Zeros(2) + h;
      HexValueLeadingZeros(2, h);
    }
    assert IsHexDigit(("00" + h)[0]);
    ToHexByteValue(dir.kifPersonalization);
    ToHexByteValue(dir.kifLoad);
    ToHexByteValue(dir.kifDebit);
    ToHexByteValue(dir.kvcPersonalization);
    ToHexByteValue(dir.kvcLoad);
    ToHexByteValue(dir.kvcDebit);
    ToHexShortValue(dir.lid);
  }

  /** The descriptor of one application (`CardApplicationData`). The constructor's field mapping
      is written as the definitions of the fixed fields, over the selection `appData` the
      descriptor is built from: copies of the serial number, FCI and DF name, the serial
      number's value, the product type, the session-modification byte in hexadecimal padded to
      four digits, its buffer size, a transaction counter that is never read, the other bytes
      in hexadecimal, the key identifiers and versions per access level (personalization, load,
      debit), and the four access groups of the DF. The file list is the only part that
      changes after construction: the analyzer appends the files it reads. The serial number's
      numeric value comes from a library routine the constructor is given as `extractLong`. */
  class CardApplicationData {
    const appData: CalypsoCard
    const fci: seq<JByte> := appData.selectApplicationResponse
    const calypsoRevision: string := appData.productType
    const aid: seq<JByte> := appData.dfName
    const csn: seq<JByte> := appData.applicationSerialNumber
    const csnDec: int
    const sessionModif: string := PadLeftSpec(ToHexByte(appData.sessionModification), 4, '0')
    const sessionModifDec: JInt := appData.sessionModification
    const bufferSize: int := SessionBufferSize(appData.sessionModification)
    const platform: string := ToHexByte(appData.platform)
    const applicationType: string := ToHexByte(appData.applicationType)
    const applicationSubtype: string := ToHexByte(appData.applicationSubtype)
    const issuer: Issuer := NewIssuer(appData.softwareIssuer)
    const version: string := ToHexByte(appData.softwareVersion)
    const revision: string := ToHexByte(appData.softwareRevision)
    const transactionCounter: string := "Not available"
    const transactionCounterDec: int := 0
    const accessConditions: AccessConditions :=
      NewAccessConditions(appData.directoryHeader.accessConditions,
                          appData.directoryHeader.keyIndexes)
    const status: string := ToHexByte(appData.directoryHeader.dfStatus)
    const kif1: string := ToHexByte(appData.directoryHeader.kifPersonalization)
    const kif2: string := ToHexByte(appData.directoryHeader.kifLoad)
    const kif3: string := ToHexByte(appData.directoryHeader.kifDebit)
    const kvc1: string := ToHexByte(appData.directoryHeader.kvcPersonalization)
    const kvc2: string := ToHexByte(appData.directoryHeader.kvcLoad)
    const kvc3: string := ToHexByte(appData.directoryHeader.kvcDebit)
    const lid: string := ToHexShort(appData.directoryHeader.lid)
    var fileList: seq<CardFileData>

    constructor (appData: CalypsoCard, extractLong: seq<JByte> -> int)
      ensures this.appData == appData && csnDec == extractLong(appData.applicationSerialNumber)
      ensures fileList == []
    {
      this.appData := appData;
      csnDec := extractLong(appData.applicationSerialNumber);
      fileList := [];
    }

    /** `getFileList().add(file)`. */
    method AppendFile(file: CardFileData)
      modifies this
      ensures fileList == old(fileList) + [file]
    {
      fileList := fileList + [file];
    }

    /** What the check tool reads of this descriptor, the `read` side of its comparisons: every
        field is present, as written, and so is each group's access condition. */
    function View(): (v: AppView)
      reads this
      ensures v.aid == aid && v.lid == Some(lid) && v.fileList == FileViews(fileList)
      ensures v.calypsoRevision == Some(calypsoRevision) && v.sessionModif == Some(sessionModif)
      ensures v.applicationType == Some(applicationType)
              && v.applicationSubtype == Some(applicationSubtype)
      ensures v.kif1 == Some(kif1) && v.kif2 == Some(kif2) && v.kif3 == Some(kif3)
      ensures v.kvc1 == Some(kvc1) && v.kvc2 == Some(kvc2) && v.kvc3 == Some(kvc3)
      ensures v.accessConditions == accessConditions
      ensures v.accessConditions.group0.accessCondition.Some?
              && v.accessConditions.group1.accessCondition.Some?
              && v.accessConditions.group2.accessCondition.Some?
              && v.accessConditions.group3.accessCondition.Some?
    {
      AppView(aid, Some(calypsoRevision), Some(sessionModif), Some(applicationType),
              Some(applicationSubtype), Some(kif1), Some(kif2), Some(kif3), Some(kvc1),
              Some(kvc2), Some(kvc3), Some(lid), accessConditions, FileViews(fileList))
    }
  }

  /** `sessionModif` is always "00" followed by the two digits of the byte. */
  lemma SessionModifIsPaddedByte(sm: JByte)
    ensures PadLeftSpec(ToHexByte(sm), 4, '0') == "00" + ToHexByte(sm)
  {
    var s := PadLeftSpec(ToHexByte(sm), 4, '0');
    assert s[..2] == "00";
    assert s == s[..2] + s[2..];
  }

  // ---------------------------------------------------------------- CardStructureData

  /** The document the analyzer writes (`CardStructureData`): its id is set late, and the
      application list grows in place; the other fields are fixed at construction. The date is
      given already formatted. Both tool generations have this same class, each over its own
      application descriptor, hence the parameter `App`. */
  class CardStructureData<App> {
    var id: Option<string>
    const infos: string
    const date: string
    const version: JInt
    const software: string
    const traceability: seq<JByte>
    var applicationList: seq<App>

    constructor (traceabilityInfo: seq<JByte>, softwareInfo: string, creationDate: string,
                 softwareVersion: JInt, softwareName: string)
      ensures id == None && traceability == traceabilityInfo && infos == softwareInfo
      ensures date == creationDate && version == softwareVersion && software == softwareName
      ensures applicationList == []
    {
      id := None;
      traceability := traceabilityInfo;
      infos := softwareInfo;
      date := creationDate;
      version := softwareVersion;
      software := softwareName;
      applicationList := [];
    }

    /** `setId`: binds the id; nothing else changes. */
    method SetId(newId: string)
      modifies this`id
      ensures id == Some(newId)
    {
      id := Some(newId);
    }

    /** Appending to `getApplicationList()`: earlier entries stay as they were. */
    method AppendApplications(apps: seq<App>)
      modifies this`applicationList
      ensures applicationList == old(applicationList) + apps
    {
      applicationList := applicationList + apps;
    }
  }
}
