/** The data records of the older tool generation (`org.cna.keyple.tool.calypso.carddata`). They
    hold the same information as the newer ones, but print every code with Java's
    `String.format("%0wX", v)` instead of `HexUtil.toHex`; the lemmas at the end say where the two
    generations write the same text and where they do not. The document class and the record
    class are shared with the newer generation (`CardData.CardStructureData`, `Records`). */
module KeypleCardData {
  import opened Wrappers
  import opened JavaText
  import opened ToolUtils
  import opened CardApi
  import opened Records
  import CardData

  /** A cross-reference between two files (`FileReference`). Unlike the newer class, every
      string must be present: the constructor copies each argument with `new String`, which
      fails on `null`. */
  class FileReference {
    const baseFileLid: string
    const linkedFileLid: string
    const refValueRead: string
    var referenceFoundFlag: bool

    constructor (baseLid: string, linkedLid: string, refValue: string)
      ensures baseFileLid == baseLid && linkedFileLid == linkedLid && refValueRead == refValue
      ensures !referenceFoundFlag
    {
      baseFileLid := baseLid;
      linkedFileLid := linkedLid;
      refValueRead := refValue;
      referenceFoundFlag := false;
    }

    method SetReferenceFoundFlag(flag: bool)
      modifies this
      ensures referenceFoundFlag == flag
    {
      referenceFoundFlag := flag;
    }
  }

  /** The descriptor of one elementary file (`CardFileData`), its fixed fields defined over the
      file-table entry `fileInfo` it is built from: `%04X` for the LID, the record size and the
      shared reference, `%02X` for the SFI, the type code and the record count, the long name
      of the type, both counts also as numbers, and the four access groups. Only its record
      list changes after construction. */
  class CardFileData {
    const fileInfo: ElementaryFile
    const sfi: string := FormatHex(UByte(fileInfo.sfi), 2)
    const lid: string := FormatHex(UShort(fileInfo.header.lid), 4)
    const efType: string := FormatHex(EfTypeIntValue(fileInfo.header.efType), 2)
    const efTypeName: string := EfTypeName(EfTypeIntValue(fileInfo.header.efType), true)
    const ref: string := FormatHex(UShort(fileInfo.header.sharedReference), 4)
    const recSize: string := FormatHex(UInt(fileInfo.header.recordSize), 4)
    const recSizeDec: JInt := fileInfo.header.recordSize
    const numRec: string := FormatHex(UInt(fileInfo.header.recordsNumber), 2)
    const numRecDec: JInt := fileInfo.header.recordsNumber
    const accessConditions: CardData.AccessConditions :=
      CardData.NewAccessConditions(fileInfo.header.accessConditions, fileInfo.header.keyIndexes)
    var recordData: seq<RecordData>

    constructor (fileInfo: ElementaryFile)
      ensures this.fileInfo == fileInfo && recordData == []
    {
      this.fileInfo := fileInfo;
      recordData := [];
    }

    /** `getRecordData().add(record)`. */
    method AppendRecord(record: RecordData)
      modifies this
      ensures recordData == old(recordData) + [record]
    {
      recordData := recordData + [record];
    }

    /** `getFileTypeName` as written: it returns the two-digit type code, not the name. */
    function FileTypeNameAsWritten(): (r: string)
      ensures r == efType
    {
      efType
    }

    /** The getter the name evidently calls for: the long name stored at construction. */
    function FileTypeName(): (r: string)
      ensures r == efTypeName
    {
      efTypeName
    }
  }

  /** What the check tool reads back from a descriptor: the LID, SFI and shared reference are
      four, two and four digits long and parse to the entry's values, the type code reads back
      to the stored type name, which is the file type's, and the record size and count are the
      entry's values in base 16 (when not negative). */
  lemma FileFieldsDecode(f: CardFileData)
    ensures var header := f.fileInfo.header;
      && |f.lid| == 4 && |f.sfi| == 2 && |f.efType| == 2 && |f.ref| == 4
      && ParseHex(f.lid) == Some(UShort(header.lid))
      && ParseHex(f.sfi) == Some(UByte(f.fileInfo.sfi))
      && ParseHex(f.ref) == Some(UShort(header.sharedReference))
      && EfTypeNameOfString(f.efType, true) == Some(f.efTypeName)
      && f.efTypeName == EfTypeName(EfTypeIntValue(header.efType), true)
      && AllHex(f.recSize) && AllHex(f.numRec)
      && (0 <= header.recordSize ==> HexValue(f.recSize) == header.recordSize)
      && (0 <= header.recordsNumber ==> HexValue(f.numRec) == header.recordsNumber)
  {
    var header := f.fileInfo.header;
    var efTypeValue := EfTypeIntValue(header.efType);
    assert Pow16(4) == 0x1_0000;
    HexOfLength(UShort(header.lid), 4);
    HexOfLength(UShort(header.sharedReference), 4);
    HexOfLength(UByte(f.fileInfo.sfi), 2);
    HexOfLength(efTypeValue, 2);
    EfTypeNameOfHex(efTypeValue, 2, true);
    ParseFormatHex(UShort(header.lid), 4);
    ParseFormatHex(UShort(header.sharedReference), 4);
    ParseFormatHex(UByte(f.fileInfo.sfi), 2);
    FormatHexValue(UInt(header.recordSize), 4);
    FormatHexValue(UInt(header.recordsNumber), 2);
  }

  /** Whatever the file, `getFileTypeName` as written never returns the type's name: the code
      it returns reads back in base 16 to the type code, and that code differs from the name
      the descriptor holds. */
  lemma FileTypeNameIsTheCode(t: EfType)
    ensures var code := EfTypeIntValue(t);
      FormatHex(code, 2) != EfTypeName(code, true)
      && EfTypeNameOfString(FormatHex(code, 2), true) == Some(EfTypeName(code, true))
  {
    var code := EfTypeIntValue(t);
    var hex := FormatHex(code, 2);
    FormatHexWidth(code, 2);
    assert |hex| == 2;
    EfTypeNameOfHex(code, 2, true);
  }

  /** For every descriptor, the getter as written and the getter the name calls for disagree:
      `getFileTypeName` never returns the file type's name. */
  lemma FileTypeGettersDiffer(f: CardFileData)
    ensures f.FileTypeNameAsWritten() != f.FileTypeName()
  {
    FileTypeNameIsTheCode(f.fileInfo.header.efType);
  }

  /** The descriptor of one application (`CardApplicationData`), its fixed fields defined over
      the selection `appData` it is built from: the same fields as the newer descriptor, with
      every byte printed by `%02X`, the LID by `%04X` and the session-modification byte by
      `%04X`. Only its file list changes after construction. The serial number's numeric value
      comes from `ToolUtils.bytesToLong`, which the constructor is given as `bytesToLong`. */
  class CardApplicationData {
    const appData: CalypsoCard
    const fci: seq<JByte> := appData.selectApplicationResponse
    const calypsoRevision: string := appData.productType
    const aid: seq<JByte> := appData.dfName
    const csn: seq<JByte> := appData.applicationSerialNumber
    const csnDec: int
    const sessionModif: string := FormatHex(UByte(appData.sessionModification), 4)
    const sessionModifDec: JInt := appData.sessionModification
    const bufferSize: int := CardData.SessionBufferSize(appData.sessionModification)
    const platform: string := FormatHex(UByte(appData.platform), 2)
    const applicationType: string := FormatHex(UByte(appData.applicationType), 2)
    const applicationSubtype: string := FormatHex(UByte(appData.applicationSubtype), 2)
    const issuer: CardData.Issuer :=
      CardData.Issuer(FormatHex(UByte(appData.softwareIssuer), 2), IssuerName(appData.softwareIssuer))
    const version: string := FormatHex(UByte(appData.softwareVersion), 2)
    const revision: string := FormatHex(UByte(appData.softwareRevision), 2)
    const transactionCounter: string := "Not available"
    const transactionCounterDec: int := 0
    const accessConditions: CardData.AccessConditions :=
      CardData.NewAccessConditions(appData.directoryHeader.accessConditions,
                                   appData.directoryHeader.keyIndexes)
    const status: string := FormatHex(UByte(appData.directoryHeader.dfStatus), 2)
    const kif1: string := FormatHex(UByte(appData.directoryHeader.kifPersonalization), 2)
    const kif2: string := FormatHex(UByte(appData.directoryHeader.kifLoad), 2)
    const kif3: string := FormatHex(UByte(appData.directoryHeader.kifDebit), 2)
    const kvc1: string := FormatHex(UByte(appData.directoryHeader.kvcPersonalization), 2)
    const kvc2: string := FormatHex(UByte(appData.directoryHeader.kvcLoad), 2)
    const kvc3: string := FormatHex(UByte(appData.directoryHeader.kvcDebit), 2)
    const lid: string := FormatHex(UShort(appData.directoryHeader.lid), 4)
    var fileList: seq<CardFileData>

    constructor (appData: CalypsoCard, bytesToLong: seq<JByte> -> int)
      ensures this.appData == appData && csnDec == bytesToLong(appData.applicationSerialNumber)
      ensures fileList == []
    {
      this.appData := appData;
      csnDec := bytesToLong(appData.applicationSerialNumber);
      fileList := [];
    }

    /** `getFileList().add(file)`. */
    method AppendFile(file: CardFileData)
      modifies this
      ensures fileList == old(fileList) + [file]
    {
      fileList := fileList + [file];
    }

    /** `getIssuerInfo` and `getIssuer` are two names for the same field. */
    function IssuerInfo(): (r: CardData.Issuer)
      ensures r == issuer
    {
      issuer
    }
  }

  // ---------------------------------------------------------------- the two generations compared

  /** Bytes and shorts: `%02X` / `%04X` print what `HexUtil.toHex` prints, and the issuer is the
      same record in both generations. */
  lemma SameByteAndShortCodes(b: JByte, s: JShort)
    ensures FormatHex(UByte(b), 2) == ToHexByte(b) && FormatHex(UShort(s), 4) == ToHexShort(s)
    ensures CardData.Issuer(FormatHex(UByte(b), 2), IssuerName(b)) == CardData.NewIssuer(b)
  {
  }

  /** The session-modification code: the older `%04X` of the byte is the newer `padLeft` of its
      two-digit code, "00" followed by the two digits. */
  lemma SameSessionModif(sm: JByte)
    ensures FormatHex(UByte(sm), 4) == PadLeftSpec(ToHexByte(sm), 4, '0')
  {
    var u := UByte(sm);
    var h := HexOf(u);
    HexOfLength(u, 2);
    CardData.SessionModifIsPaddedByte(sm);
    assert FormatHex(u, 4) == Zeros(4 - |h|) + h;
    if |h| == 1 {
      assert ToHexByte(sm) == Zeros(1) + h;
      assert Zeros(3) == "00" + Zeros(1);
    } else {
      assert ToHexByte(sm) == h;
    }
  }

  /** The number of records: `%02X` and `HexUtil.toHex(int)` agree below 0x100, and from 0x100 to
      0xFFF the older code has three digits where the newer one has four. */
  lemma NumRecCodes(n: JInt)
    ensures UInt(n) < 0x100 ==> FormatHex(UInt(n), 2) == ToHexInt(n)
    ensures 0x100 <= UInt(n) < 0x1000 ==>
      |FormatHex(UInt(n), 2)| == 3 && |ToHexInt(n)| == 4
  {
    var u := UInt(n);
    HexOfLength(u, 2);
    HexOfLength(u, 3);
    assert Pow16(2) == 0x100 && Pow16(3) == 0x1000;
  }

  /** The record size: the older generation writes it in hexadecimal, the newer one in decimal
      (both on four digits), so from 10 up the two texts always differ. */
  lemma RecSizeCodesDiffer(recordSize: JInt)
    requires 10 <= recordSize < 10000
    ensures FormatHex(recordSize, 4) != PadLeftSpec(Decimal(recordSize), 4, '0')
  {
    var d := PadLeftSpec(Decimal(recordSize), 4, '0');
    CardData.RecSizeIsDecimal(recordSize);
    FormatHexValue(recordSize, 4);
    if FormatHex(recordSize, 4) == d {
      HexValueOfDecimalDigits(d);
      assert false;
    }
  }

  /** Read in base 16, a string of decimal digits is worth at least its decimal value, and the
      two readings agree only on values below ten. */
  lemma {:induction false} HexValueOfDecimalDigits(s: string)
    requires forall i :: 0 <= i < |s| ==> IsDecDigit(s[i])
    ensures AllHex(s) && HexValue(s) >= DecValue(s)
    ensures HexValue(s) == DecValue(s) ==> DecValue(s) < 10
    decreases |s|
  {
    if s != [] {
      var p := s[..|s| - 1];
      HexValueOfDecimalDigits(p);
    }
  }
}
