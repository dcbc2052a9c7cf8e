# Calypso card analyzer and structure checker — a Dafny model

The repository holds two tools for Calypso contactless cards, in two generations: the newer
`org.calypsonet` package and the older `org.cna.keyple` package.

- **The analyzer** (`Tool_AnalyzeCardFileStructure`, both generations) walks a card. It finds
  the first application that answers one of a fixed list of AID prefixes and reads that
  application's traceability data. It then collects every application of every prefix, walks
  each application's file table with FIRST_EF / NEXT_EF, and reads the records of every file
  that may be read. It builds a document (`CardStructureData`) of application descriptors
  (`CardApplicationData`) and file descriptors (`CardFileData`) with their records
  (`RecordData`). The document's id is `<date>_CardData_<serial number>.json`.
- **The structure checker** (`Tool_CheckCardFileStructure`, newer generation) compares a
  reference document with what the analyzer discovers on the card. It works field by field,
  skips any field the reference leaves out, and logs each discrepancy. A data reference between
  two files goes to a resolver list (`dataRefStatus`, a list of `FileReference`). The list marks
  the first stored entry that points back at the newcomer. At the end, every entry that was
  never resolved is reported.
- **The codecs and tables** (`ToolUtils`, `AccessConditions`, `getSessionBufferSize`) give the
  names of access conditions, EF types and software issuers, the session buffer sizes, and the
  `padLeft` routine.

## How the model is organised

| file | module | what it holds |
|---|---|---|
| `wrappers.dfy` | `Wrappers` | `Option` and `Result` |
| `java_text.dfy` | `JavaText` | Java's signed bytes, shorts and ints; `HexUtil.toHex`; `String.format("%0wX")`; `String.valueOf(int)`; `Integer.parseInt(s, 16)` |
| `tool_utils.dfy` | `ToolUtils` | the name tables and `padLeft` |
| `card_api.dfy` | `CardApi` | the card as an oracle: per AID, the applications its FIRST/NEXT selections reach, with their selection answers, file tables, record contents and GET DATA outcome |
| `records.dfy` | `Records` | `RecordData` and the step both analyzers use to build a record from the bytes read |
| `card_data.dfy` | `CardData` | the newer descriptors, `AccessConditions`, the newer `FileReference`, `CardStructureData` (used by both generations) |
| `keyple_card_data.dfy` | `KeypleCardData` | the older descriptors and the older `FileReference` |
| `analyzer_spec.dfy` | `AnalyzerSpec` | what an analysis of the oracle card must produce (walk length, records read, names collected, traceability, document name) |
| `analyzer.dfy` | `Analyzer` | the newer analyzer's loops, as methods proved against `AnalyzerSpec` |
| `keyple_analyzer.dfy` | `KeypleAnalyzer` | the older analyzer, with its different error handling |
| `check.dfy` | `CheckCardFileStructure` | the checker: comparisons as functions that return the list of reports, the resolver as a state function, and the `Checker` class whose methods are proved against those functions |

The checker's log is modelled as a list of `Report` values, one per message, in message order.
Messages that only inform ("Checking file with SFI …", the separator lines) are not reports.
An exception that nothing catches in Java is a `Failure` result that ends the run. The one
exception is a `NullPointerException` or `NumberFormatException` that a malformed reference
document would raise in the checker: that is a precondition (`AcsPresent`, `AppTypesParse`,
`FileCheckable`, `FilesCheckable`, `AppCheckable`, `RunCheckable`). In both generations
`getFileData` catches nothing, so a failed READ RECORD ends the whole run (`ReadRecordFailed`).

## Model

Paths are relative to the repository root.

| member | source | states |
|---|---|---|
| JavaText.ToJByte | src/main/java/org/calypsonet/tool/calypso/card/Tool_AnalyzeCardFileStructure.java:108 | the `(byte)` cast keeps the value modulo 256 and is the identity on values that already fit a byte |
| JavaText.FormatHexValue | src/main/java/org/cna/keyple/tool/calypso/carddata/CardFileData.java:45-72 | what `%0wX` prints is a string of hexadecimal digits whose value is the number printed |
| JavaText.FormatHexWidth | src/main/java/org/cna/keyple/tool/calypso/carddata/CardFileData.java:45-72 | a number below 16^w is printed by `%0wX` in exactly w digits |
| JavaText.FormatHex | src/main/java/org/cna/keyple/tool/calypso/carddata/CardFileData.java:45-72 | `%0wX` is never shorter than w and only longer than w when the shortest rendering is |
| JavaText.ParseHex | src/main/java/org/calypsonet/tool/calypso/card/Tool_CheckCardFileStructure.java:162-164 | `Integer.parseInt(s, 16)` yields the value of an ASCII hexadecimal digit string that fits an int, and fails on the empty string |
| JavaText.ParseFormatHex | src/main/java/org/cna/keyple/tool/calypso/common/ToolUtils.java:133-138 | anything `%0wX` prints for a value that fits an int parses back to that value (the round trip the string forms of the tables rely on) |
| JavaText.ToHexByte | src/main/java/org/calypsonet/tool/calypso/carddata/AccessConditions.java:32-39 | `HexUtil.toHex(byte)` is always two characters |
| JavaText.ToHexByteValue | src/main/java/org/calypsonet/tool/calypso/carddata/AccessConditions.java:32-39 | `HexUtil.toHex(byte)` parses back to the byte's unsigned value |
| JavaText.ToHexShort | src/main/java/org/calypsonet/tool/calypso/carddata/CardFileData.java:48-73 | `HexUtil.toHex(short)` is always four characters |
| JavaText.ToHexShortValue | src/main/java/org/calypsonet/tool/calypso/carddata/CardFileData.java:48-73 | `HexUtil.toHex(short)` parses back to the short's unsigned value |
| JavaText.ToHexInt | src/main/java/org/cna/keyple/tool/calypso/carddata/RecordData.java:28-33 | `HexUtil.toHex(int)` has 2, 4, 6 or 8 characters |
| JavaText.ToHexIntValue | src/main/java/org/cna/keyple/tool/calypso/carddata/RecordData.java:28-33 | `HexUtil.toHex(int)` has the int's unsigned value, uses no more digit pairs than it needs, and parses back to a non-negative int |
| JavaText.ToHexBytes | src/main/java/org/calypsonet/tool/calypso/card/Tool_AnalyzeCardFileStructure.java:227 | `HexUtil.toHex(byte[])` has two characters per byte |
| JavaText.ToHexBytesAt | src/main/java/org/calypsonet/tool/calypso/card/Tool_AnalyzeCardFileStructure.java:227 | byte i of the array is printed at positions 2i and 2i+1, as `toHex(byte)` prints it |
| JavaText.Decimal | src/main/java/org/calypsonet/tool/calypso/carddata/CardFileData.java:62 | `String.valueOf(int)` is never empty |
| JavaText.DecimalSign | src/main/java/org/cna/keyple/tool/calypso/common/ToolUtils.java:140-177 | a printed int starts with a digit exactly when it is not negative |
| JavaText.DecimalInjective | src/main/java/org/calypsonet/tool/calypso/card/Tool_AnalyzeCardFileStructure.java:305-313 | distinct ints are printed differently |
| ToolUtils.EfTypeNameNamed | src/main/java/org/cna/keyple/tool/calypso/common/ToolUtils.java:63-96 | exactly the codes 1, 2, 4, 8 and 9 have a name other than "--", and every short name is four characters long |
| ToolUtils.EfTypeNameOfString | src/main/java/org/cna/keyple/tool/calypso/common/ToolUtils.java:57-61 | the string form fails exactly when its code does not parse in base 16 |
| ToolUtils.EfTypeNameOfHex | src/main/java/org/cna/keyple/tool/calypso/common/ToolUtils.java:57-61 | a code printed in hexadecimal names, through the string form, the same type as the code itself |
| ToolUtils.EfTypeIntValueNamed | src/main/java/org/cna/keyple/tool/calypso/common/ToolUtils.java:98-131 | every code `getEfTypeIntValue` returns has a name |
| ToolUtils.EfTypeCodeImage | src/main/java/org/cna/keyple/tool/calypso/common/ToolUtils.java:98-131 | the codes `getEfTypeIntValue` returns are exactly the codes `getEfTypeName` names |
| ToolUtils.EfTypeIntValueInjective | src/main/java/org/cna/keyple/tool/calypso/common/ToolUtils.java:98-131 | distinct EF types get distinct codes |
| ToolUtils.AcNameShape | src/main/java/org/cna/keyple/tool/calypso/common/ToolUtils.java:140-177 | exactly the conditions 1F, 00, 01, 10, 14 and 15 are named, and the names of 10, 14 and 15 end with the key level in decimal |
| ToolUtils.AcNameKeyLevel | src/main/java/org/cna/keyple/tool/calypso/common/ToolUtils.java:140-177 | the key level changes the name exactly for conditions 10, 14 and 15 |
| ToolUtils.AcNameOfStrings | src/main/java/org/cna/keyple/tool/calypso/common/ToolUtils.java:133-138 | the string form fails exactly when either argument does not parse in base 16, even when the key level would not be shown |
| ToolUtils.AcNameOfHexBytes | src/main/java/org/cna/keyple/tool/calypso/common/ToolUtils.java:133-138 | the names read back from the two-digit strings of two bytes are the names of their unsigned values |
| ToolUtils.IssuerNameKnown | src/main/java/org/cna/keyple/tool/calypso/common/ToolUtils.java:179-414 | exactly the codes 00 to 2F except 03 have a name; a byte above 7F, negative in Java, has none |
| ToolUtils.IssuerNameRoundTrip | src/main/java/org/cna/keyple/tool/calypso/common/ToolUtils.java:179-414 | the name of a known code leads back to the smallest code that has that name |
| ToolUtils.IssuerNameOfCanonical | src/main/java/org/cna/keyple/tool/calypso/common/ToolUtils.java:179-414 | a code has the same name as the smallest code sharing it |
| ToolUtils.IssuerNameShared | src/main/java/org/cna/keyple/tool/calypso/common/ToolUtils.java:179-414 | two known codes share a name exactly when they lead back to the same smallest code |
| ToolUtils.IssuerNamePairs | src/main/java/org/cna/keyple/tool/calypso/common/ToolUtils.java:179-414 | the only codes that share a name are the pairs 05/0A, 11/20, 02/2E and 25/29 |
| ToolUtils.PadLeftSpec | src/main/java/org/cna/keyple/tool/calypso/common/ToolUtils.java:428-438 | the padded string is as long as the requested length, or as the input when that is longer |
| ToolUtils.PadLeftShape | src/main/java/org/cna/keyple/tool/calypso/common/ToolUtils.java:428-438 | the padded string ends with the input and holds only the pad character before it |
| ToolUtils.PadLeftIdempotent | src/main/java/org/cna/keyple/tool/calypso/common/ToolUtils.java:428-438 | padding an already padded string changes nothing |
| ToolUtils.PadLeft | src/main/java/org/cna/keyple/tool/calypso/common/ToolUtils.java:428-438 | the builder loop returns the padded string the specification describes |
| Records.NewRecordData | src/main/java/org/cna/keyple/tool/calypso/carddata/RecordData.java:28-33 | the record's index is the hexadecimal of its number and its value the array's elements at the time of the call |
| Records.MakeRecord | src/main/java/org/calypsonet/tool/calypso/card/Tool_AnalyzeCardFileStructure.java:111-113 | the record built from a copy of the content has the number's hexadecimal index and that content |
| CardData.NewAccessCondition | src/main/java/org/calypsonet/tool/calypso/carddata/AccessConditions.java:32-39 | a group built from two bytes has a condition, a key level and a description |
| CardData.NewAccessConditionDescribed | src/main/java/org/calypsonet/tool/calypso/carddata/AccessConditions.java:32-39 | the stored strings parse back to the two bytes, and the name read back from them is the description |
| CardData.NewAccessConditionsDescribed | src/main/java/org/calypsonet/tool/calypso/carddata/AccessConditions.java:62-87 | group k of the four describes entry k of both arrays |
| CardData.CardFileData.constructor | src/main/java/org/calypsonet/tool/calypso/carddata/CardFileData.java:48-73 | the descriptor is built over the file's information with an empty record list |
| CardData.FileFieldsDecode | src/main/java/org/calypsonet/tool/calypso/carddata/CardFileData.java:48-73 | LID, SFI and data reference have 4, 2 and 4 characters and parse back to the header's values; the type string names the file's type; the record count parses back when not negative |
| CardData.RecSizeIsDecimal | src/main/java/org/calypsonet/tool/calypso/carddata/CardFileData.java:62 | a record size below 10000 is four decimal digits whose decimal value is the size |
| CardData.CardFileData.AppendRecord | src/main/java/org/calypsonet/tool/calypso/carddata/CardFileData.java:111-113 | the record is appended at the end of the record list |
| CardData.CardFileData.View | src/main/java/org/calypsonet/tool/calypso/carddata/CardFileData.java:75-109 | the getters the checker uses return every field, none of them missing, each being the descriptor's own field, and every access group has its condition |
| CardData.NewIssuer | src/main/java/org/calypsonet/tool/calypso/carddata/CardApplicationData.java:39-44 | the issuer holds the byte in hexadecimal and the byte's issuer name |
| CardData.SessionBufferSize | src/main/java/org/calypsonet/tool/calypso/carddata/CardApplicationData.java:107-143 | the table gives a size, from 215 to 1024 bytes, exactly to the values 6 to 15 |
| CardData.SessionBufferSizeIncreasing | src/main/java/org/calypsonet/tool/calypso/carddata/CardApplicationData.java:107-143 | more session modifications always mean a larger buffer |
| CardData.CardApplicationData.constructor | src/main/java/org/calypsonet/tool/calypso/carddata/CardApplicationData.java:145-201 | the descriptor is built over the selection data, with the serial number's value from `extractLong` and an empty file list |
| CardData.AppFieldsDecode | src/main/java/org/calypsonet/tool/calypso/carddata/CardApplicationData.java:145-201 | the session-modification code is "00" then the byte's two digits, and it, the KIFs, the KVCs and the LID parse back to the selection's values; the issuer is named from the issuer byte |
| CardData.SessionModifIsPaddedByte | src/main/java/org/calypsonet/tool/calypso/carddata/CardApplicationData.java:155 | `padLeft` of the byte's two digits to four is "00" then those digits |
| CardData.CardApplicationData.AppendFile | src/main/java/org/calypsonet/tool/calypso/carddata/CardApplicationData.java:374-376 | the file descriptor is appended at the end of the file list |
| CardData.CardApplicationData.View | src/main/java/org/calypsonet/tool/calypso/carddata/CardApplicationData.java:274-376 | the getters the checker uses return the AID, the revision, the session modification, the application type and subtype, the three KIFs and KVCs, the LID, the access conditions with every group's condition present, and the views of the file list in order, each being the descriptor's own field |
| CardData.CardStructureData.constructor | src/main/java/org/calypsonet/tool/calypso/carddata/CardStructureData.java:41-59 | the document holds the traceability data, the software fields and the date, with no id and no applications |
| CardData.CardStructureData.SetId | src/main/java/org/calypsonet/tool/calypso/carddata/CardStructureData.java:105-107 | the id is set and nothing else changes |
| CardData.CardStructureData.AppendApplications | src/main/java/org/calypsonet/tool/calypso/carddata/CardStructureData.java:61-63 | the applications are appended after the earlier ones, which stay as they were |
| KeypleCardData.FileReference.constructor | src/main/java/org/cna/keyple/tool/calypso/carddata/FileReference.java:24-33 | the reference holds the two LIDs and the value, with its found flag unset |
| KeypleCardData.FileReference.SetReferenceFoundFlag | src/main/java/org/cna/keyple/tool/calypso/carddata/FileReference.java:51-53 | the flag takes the given value and nothing else changes |
| KeypleCardData.CardFileData.constructor | src/main/java/org/cna/keyple/tool/calypso/carddata/CardFileData.java:45-72 | the descriptor is built over the file's information with an empty record list |
| KeypleCardData.FileFieldsDecode | src/main/java/org/cna/keyple/tool/calypso/carddata/CardFileData.java:45-72 | LID, SFI, type and data reference have 4, 2, 2 and 4 characters and parse back to the header's values; the type name is the name of the type code; record size and count are hexadecimal with the header's values when not negative |
| KeypleCardData.CardFileData.AppendRecord | src/main/java/org/cna/keyple/tool/calypso/carddata/CardFileData.java:114-116 | the record is appended at the end of the record list |
| KeypleCardData.CardFileData.FileTypeNameAsWritten | src/main/java/org/cna/keyple/tool/calypso/carddata/CardFileData.java:86-88 | the getter as written returns the type code |
| KeypleCardData.CardFileData.FileTypeName | src/main/java/org/cna/keyple/tool/calypso/carddata/CardFileData.java:86-88 | the getter as intended returns the long type name stored at construction |
| KeypleCardData.FileTypeNameIsTheCode | src/main/java/org/cna/keyple/tool/calypso/carddata/CardFileData.java:86-88 | for every EF type the two-digit code differs from the type's name, though the name can be read back from the code |
| KeypleCardData.FileTypeGettersDiffer | src/main/java/org/cna/keyple/tool/calypso/carddata/CardFileData.java:86-88 | for every descriptor the getter as written and the getter as intended return different strings |
| KeypleCardData.CardApplicationData.constructor | src/main/java/org/cna/keyple/tool/calypso/carddata/CardApplicationData.java:138-202 | the descriptor is built over the selection data, with the serial number's value from `bytesToLong` and an empty file list |
| KeypleCardData.CardApplicationData.AppendFile | src/main/java/org/cna/keyple/tool/calypso/carddata/CardApplicationData.java:386-388 | the file descriptor is appended at the end of the file list |
| KeypleCardData.CardApplicationData.IssuerInfo | src/main/java/org/cna/keyple/tool/calypso/carddata/CardApplicationData.java:322-328 | `getIssuerInfo` and `getIssuer` give the same issuer |
| KeypleCardData.SameByteAndShortCodes | src/main/java/org/cna/keyple/tool/calypso/carddata/CardApplicationData.java:138-202 | the older `%02X`/`%04X` codes of bytes and shorts equal the newer `HexUtil.toHex` codes, and the issuers agree |
| KeypleCardData.SameSessionModif | src/main/java/org/cna/keyple/tool/calypso/carddata/CardApplicationData.java:148 | the older `%04X` session-modification code equals the newer padded one |
| KeypleCardData.NumRecCodes | src/main/java/org/cna/keyple/tool/calypso/carddata/CardFileData.java:45-72 | the two record-count codes agree below 0x100 and differ in length from 0x100 to 0xFFF |
| KeypleCardData.RecSizeCodesDiffer | src/main/java/org/cna/keyple/tool/calypso/carddata/CardFileData.java:45-72 | from 10 to 9999 the older hexadecimal record size and the newer decimal one always differ |
| CheckCardFileStructure.CheckString | src/main/java/org/calypsonet/tool/calypso/card/Tool_CheckCardFileStructure.java:80-85 | a field is reported, once, exactly when the reference gives a value and the value read differs |
| CheckCardFileStructure.CheckFields | src/main/java/org/calypsonet/tool/calypso/card/Tool_CheckCardFileStructure.java:127-133 | a list of fields gives at most one report per field |
| CheckCardFileStructure.CheckFieldsSilent | src/main/java/org/calypsonet/tool/calypso/card/Tool_CheckCardFileStructure.java:80-85 | a list of fields is silent exactly when every field agrees |
| CheckCardFileStructure.CheckAccessCondition | src/main/java/org/calypsonet/tool/calypso/card/Tool_CheckCardFileStructure.java:38-69 | a condition mismatch gives one report; for conditions 10, 14 and 15 a key level that is missing from the reference or differs gives one more, the missing one reported as such |
| CheckCardFileStructure.AccessConditionSilent | src/main/java/org/calypsonet/tool/calypso/card/Tool_CheckCardFileStructure.java:38-69 | one group is silent exactly when it agrees |
| CheckCardFileStructure.KeyLevelIgnored | src/main/java/org/calypsonet/tool/calypso/card/Tool_CheckCardFileStructure.java:52-68 | for a condition without key level, a matching condition is silent whatever key level is read |
| CheckCardFileStructure.CheckGroupsFrom | src/main/java/org/calypsonet/tool/calypso/card/Tool_CheckCardFileStructure.java:71-78 | the remaining groups give at most two reports each |
| CheckCardFileStructure.CheckGroupsFromSilent | src/main/java/org/calypsonet/tool/calypso/card/Tool_CheckCardFileStructure.java:71-78 | the remaining groups are silent exactly when each agrees |
| CheckCardFileStructure.CheckAccessConditions | src/main/java/org/calypsonet/tool/calypso/card/Tool_CheckCardFileStructure.java:71-78 | the four groups give at most eight reports |
| CheckCardFileStructure.AccessConditionsSilent | src/main/java/org/calypsonet/tool/calypso/card/Tool_CheckCardFileStructure.java:71-78 | the four groups are silent exactly when each agrees |
| CheckCardFileStructure.Bit | src/main/java/org/calypsonet/tool/calypso/card/Tool_CheckCardFileStructure.java:171-197 | masking with a one-bit mask yields 0 or the mask |
| CheckCardFileStructure.FlagCheck | src/main/java/org/calypsonet/tool/calypso/card/Tool_CheckCardFileStructure.java:171-176 | a flag is reported, once, exactly when the two types differ in its bit |
| CheckCardFileStructure.FlagChecks | src/main/java/org/calypsonet/tool/calypso/card/Tool_CheckCardFileStructure.java:171-197 | a list of flags gives at most one flag report per flag |
| CheckCardFileStructure.FlagChecksSilent | src/main/java/org/calypsonet/tool/calypso/card/Tool_CheckCardFileStructure.java:171-197 | the flags are silent exactly when the two types agree on each flag's bit |
| CheckCardFileStructure.FlagsAgreeSilent | src/main/java/org/calypsonet/tool/calypso/card/Tool_CheckCardFileStructure.java:171-197 | types that agree on the bits 01, 02, 08 and 10 give no report, whatever bit 04 is |
| CheckCardFileStructure.Bit4Example | src/main/java/org/calypsonet/tool/calypso/card/Tool_CheckCardFileStructure.java:171-197 | expected 04 and read 00 give no report, since bit 04 is never compared |
| CheckCardFileStructure.CheckApplicationType | src/main/java/org/calypsonet/tool/calypso/card/Tool_CheckCardFileStructure.java:156-198 | silent when either type is missing; a reference type from 06 to 1F is compared as a string; any other gives up to four flag reports |
| CheckCardFileStructure.SvFlagExample | src/main/java/org/calypsonet/tool/calypso/card/Tool_CheckCardFileStructure.java:178-183 | expected 03 and read 01 give exactly the SV report, with bits 2 and 0 |
| CheckCardFileStructure.TextualTypeExample | src/main/java/org/calypsonet/tool/calypso/card/Tool_CheckCardFileStructure.java:166-169 | in the range compared as strings, "6" and "06" are reported although they are the same type |
| CheckCardFileStructure.FirstLinked | src/main/java/org/calypsonet/tool/calypso/card/Tool_CheckCardFileStructure.java:91-93 | the result is the least index of an entry linked to the LID, or none when no entry is |
| CheckCardFileStructure.CheckDataRefStep | src/main/java/org/calypsonet/tool/calypso/card/Tool_CheckCardFileStructure.java:87-112 | `checkDataRef` never shortens the list and only adds reports |
| CheckCardFileStructure.CheckDataRefCounterpart | src/main/java/org/calypsonet/tool/calypso/card/Tool_CheckCardFileStructure.java:91-107 | with a counterpart, the newcomer is not stored; only the counterpart's flag can change, set when the values agree, and a disagreement gives one mismatch report |
| CheckCardFileStructure.CheckDataRefNoCounterpart | src/main/java/org/calypsonet/tool/calypso/card/Tool_CheckCardFileStructure.java:89-111 | without a counterpart the newcomer is appended as it is and nothing is reported |
| CheckCardFileStructure.CheckDataRefStepKeepsEntries | src/main/java/org/calypsonet/tool/calypso/card/Tool_CheckCardFileStructure.java:87-112 | every stored entry keeps its place, LIDs and value; at most its flag changes |
| CheckCardFileStructure.MutualReferenceResolves | src/main/java/org/calypsonet/tool/calypso/card/Tool_CheckCardFileStructure.java:87-112 | two files naming each other with the same value resolve: one entry, flagged, and no report, even in the final pass |
| CheckCardFileStructure.MutualReferenceMismatch | src/main/java/org/calypsonet/tool/calypso/card/Tool_CheckCardFileStructure.java:95-104 | with different values, the second file's check reports the mismatch and the first file is reported unresolved at the end |
| CheckCardFileStructure.UnresolvedReports | src/main/java/org/calypsonet/tool/calypso/card/Tool_CheckCardFileStructure.java:300-308 | the final pass gives at most one report per entry |
| CheckCardFileStructure.UnresolvedReportsConcat | src/main/java/org/calypsonet/tool/calypso/card/Tool_CheckCardFileStructure.java:300-308 | the final pass over a list is the pass over its first part followed by the pass over the rest |
| CheckCardFileStructure.UnresolvedReportsSilent | src/main/java/org/calypsonet/tool/calypso/card/Tool_CheckCardFileStructure.java:300-308 | the final pass is silent exactly when every entry is flagged found |
| CheckCardFileStructure.FirstSameSfi | src/main/java/org/calypsonet/tool/calypso/card/Tool_CheckCardFileStructure.java:121-123 | the result is the least index of a discovered file with the SFI, or none when no file has it |
| CheckCardFileStructure.FileReports | src/main/java/org/calypsonet/tool/calypso/card/Tool_CheckCardFileStructure.java:127-135 | the field and access-condition comparisons of one file give at most twelve reports |
| CheckCardFileStructure.DataRefStep | src/main/java/org/calypsonet/tool/calypso/card/Tool_CheckCardFileStructure.java:137-148 | the data-reference part never shortens the list and only adds reports |
| CheckCardFileStructure.CheckFileStep | src/main/java/org/calypsonet/tool/calypso/card/Tool_CheckCardFileStructure.java:114-154 | checking a file never shortens the list and only adds reports |
| CheckCardFileStructure.CheckFileStepKeepsEntries | src/main/java/org/calypsonet/tool/calypso/card/Tool_CheckCardFileStructure.java:114-154 | checking a file keeps every stored entry at its place with its LIDs and value |
| CheckCardFileStructure.NoSfiReported | src/main/java/org/calypsonet/tool/calypso/card/Tool_CheckCardFileStructure.java:116-119 | a reference file without SFI gives exactly one report and leaves the list alone |
| CheckCardFileStructure.NoMatchReported | src/main/java/org/calypsonet/tool/calypso/card/Tool_CheckCardFileStructure.java:153 | a reference file no discovered file matches gives exactly one report and leaves the list alone |
| CheckCardFileStructure.OnlyFirstMatchCompared | src/main/java/org/calypsonet/tool/calypso/card/Tool_CheckCardFileStructure.java:121-150 | discovered files after the first match change nothing |
| CheckCardFileStructure.CountReport | src/main/java/org/calypsonet/tool/calypso/card/Tool_CheckCardFileStructure.java:226-231 | the file count is reported exactly when the two lists differ in length |
| CheckCardFileStructure.CheckFilesKeepsReports | src/main/java/org/calypsonet/tool/calypso/card/Tool_CheckCardFileStructure.java:233-235 | checking files keeps the reports already logged, in front |
| CheckCardFileStructure.CheckFilesPrefix | src/main/java/org/calypsonet/tool/calypso/card/Tool_CheckCardFileStructure.java:233-235 | checking the first files of a longer reference list is checking them alone |
| CheckCardFileStructure.CountMismatchReported | src/main/java/org/calypsonet/tool/calypso/card/Tool_CheckCardFileStructure.java:226-235 | a count mismatch is reported right after the header comparisons, and the file checks still follow |
| CheckCardFileStructure.ApplicationStep | src/main/java/org/calypsonet/tool/calypso/card/Tool_CheckCardFileStructure.java:287-295 | an AID with no discovered application, or with several, gives exactly that one report |
| CheckCardFileStructure.RunSpec | src/main/java/org/calypsonet/tool/calypso/card/Tool_CheckCardFileStructure.java:275-311 | a run no exception ends logs the applications' reports and then one per unresolved entry |
| CheckCardFileStructure.RunAppsStopped | src/main/java/org/calypsonet/tool/calypso/card/Tool_CheckCardFileStructure.java:277-296 | once an exception has ended the loop, later applications change nothing |
| CheckCardFileStructure.Checker.constructor | src/main/java/org/calypsonet/tool/calypso/card/Tool_CheckCardFileStructure.java:257 | the checker starts with an empty list and no report |
| CheckCardFileStructure.Checker.CheckDataRef | src/main/java/org/calypsonet/tool/calypso/card/Tool_CheckCardFileStructure.java:87-112 | the scan loop leaves the list and the log as `CheckDataRefStep` describes |
| CheckCardFileStructure.Checker.CheckCardFileData | src/main/java/org/calypsonet/tool/calypso/card/Tool_CheckCardFileStructure.java:114-154 | the scan for the first file with the SFI leaves the state `CheckFileStep` describes |
| CheckCardFileStructure.Checker.CompareFile | src/main/java/org/calypsonet/tool/calypso/card/Tool_CheckCardFileStructure.java:125-149 | the comparison of a matched file logs its field reports, then hands its data reference to the resolver |
| CheckCardFileStructure.Checker.CheckCardAppData | src/main/java/org/calypsonet/tool/calypso/card/Tool_CheckCardFileStructure.java:200-236 | the header comparisons, the count and the file loop leave the state the application specification describes |
| CheckCardFileStructure.Checker.CheckCardFiles | src/main/java/org/calypsonet/tool/calypso/card/Tool_CheckCardFileStructure.java:233-235 | the loop over the reference files checks each in reference order |
| CheckCardFileStructure.Checker.ReportUnresolved | src/main/java/org/calypsonet/tool/calypso/card/Tool_CheckCardFileStructure.java:300-308 | the final loop appends one report per unflagged entry, in list order |
| CheckCardFileStructure.CheckStructure | src/main/java/org/calypsonet/tool/calypso/card/Tool_CheckCardFileStructure.java:275-311 | without a card nothing is logged; otherwise the run ends in the state and with the exception `RunSpec` gives |
| CheckCardFileStructure.CheckApplications | src/main/java/org/calypsonet/tool/calypso/card/Tool_CheckCardFileStructure.java:277-296 | the loop over the reference applications stops at the first exception and leaves the state the run specification gives |
| CheckCardFileStructure.CheckApplication | src/main/java/org/calypsonet/tool/calypso/card/Tool_CheckCardFileStructure.java:279-295 | one application: the lookup's exception, or the one- or several-application dispatch |
| AnalyzerSpec.WalkEnd | src/main/java/org/calypsonet/tool/calypso/card/Tool_AnalyzeCardFileStructure.java:78-90 | the walk goes on while each NEXT_EF leaves exactly one more file, and stops at the first that does not |
| AnalyzerSpec.NextEfCommands | src/main/java/org/calypsonet/tool/calypso/card/Tool_AnalyzeCardFileStructure.java:65-91 | no NEXT_EF unless FIRST_EF leaves one file; then up to and including the first NEXT_EF that fails or does not add exactly one file |
| AnalyzerSpec.WalkFromEnd | src/main/java/org/calypsonet/tool/calypso/card/Tool_AnalyzeCardFileStructure.java:78-90 | the walk from a NEXT_EF on ends on the selection `WalkEnd` names and leaves its table when it succeeded, otherwise the table before it |
| AnalyzerSpec.WalkFilesTable | src/main/java/org/calypsonet/tool/calypso/card/Tool_AnalyzeCardFileStructure.java:65-91 | the walk ends on the selection `NextEfCommands` counts; the table it leaves is empty when FIRST_EF fails, the last table when the last selection succeeded, and otherwise holds one file per selection before the failing one |
| AnalyzerSpec.WalkExample | src/main/java/org/calypsonet/tool/calypso/card/Tool_AnalyzeCardFileStructure.java:78-90 | tables of 1, 2, 3 and 3 files take exactly three NEXT_EF commands and leave the last table, of three files |
| AnalyzerSpec.WalkStopsOnFailure | src/main/java/org/calypsonet/tool/calypso/card/Tool_AnalyzeCardFileStructure.java:83-88 | a NEXT_EF failing after tables of 1 and 2 files leaves the two-file table, and aborts the analysis exactly when it is neither a status error nor a failed file selection |
| AnalyzerSpec.AnalysedExample | src/main/java/org/calypsonet/tool/calypso/card/Tool_AnalyzeCardFileStructure.java:162-168 | the descriptor of an application walked over tables of 1, 2, 3 and 3 files holds three files, those of the last table, in order |
| AnalyzerSpec.AnalysedFirstEfFails | src/main/java/org/calypsonet/tool/calypso/card/Tool_AnalyzeCardFileStructure.java:67-72 | the descriptor of an application whose FIRST_EF fails holds no file |
| AnalyzerSpec.ReadUpTo | src/main/java/org/calypsonet/tool/calypso/card/Tool_AnalyzeCardFileStructure.java:103-114 | reading records 1 to n yields n records unless a read fails |
| AnalyzerSpec.ReadUpToRecords | src/main/java/org/calypsonet/tool/calypso/card/Tool_AnalyzeCardFileStructure.java:103-114 | record k of a successful loop is record number k+1, requested as `(byte)(k+1)`, with the content the card returned |
| AnalyzerSpec.ReadUpToFailurePersists | src/main/java/org/calypsonet/tool/calypso/card/Tool_AnalyzeCardFileStructure.java:103-109 | once a read has failed the loop has failed for good |
| AnalyzerSpec.RecordsReadMeaning | src/main/java/org/calypsonet/tool/calypso/card/Tool_AnalyzeCardFileStructure.java:97-115 | a file the predicate excludes gets no records; a file read in full gets one record per record number, in order |
| AnalyzerSpec.FilesAnalysedAppend | src/main/java/org/calypsonet/tool/calypso/card/Tool_AnalyzeCardFileStructure.java:164-168 | appending the descriptor of the next file keeps the file list analysed |
| AnalyzerSpec.DfNames | src/main/java/org/calypsonet/tool/calypso/card/Tool_AnalyzeCardFileStructure.java:224-229 | one name per selected occurrence, in order, each the hexadecimal of that occurrence's DF name |
| AnalyzerSpec.AllAnalysableConcat | src/main/java/org/calypsonet/tool/calypso/card/Tool_AnalyzeCardFileStructure.java:294-296 | two lists of names analyse without exception together exactly when each does |
| AnalyzerSpec.AppsAnalysedConcat | src/main/java/org/calypsonet/tool/calypso/card/Tool_AnalyzeCardFileStructure.java:294-296 | descriptors of two lists of names, one after the other, describe the concatenated list |
| AnalyzerSpec.AllAnalysablePrefix | src/main/java/org/calypsonet/tool/calypso/card/Tool_AnalyzeCardFileStructure.java:294-296 | a run that analyses all names also analyses those of every leading run of prefixes |
| AnalyzerSpec.FirstSelecting | src/main/java/org/calypsonet/tool/calypso/card/Tool_AnalyzeCardFileStructure.java:178-217 | the first prefix that selects an application, or none when no prefix does |
| AnalyzerSpec.ReportFileName | src/main/java/org/calypsonet/tool/calypso/card/Tool_AnalyzeCardFileStructure.java:305-313 | the file name starts with the date string, ends with ".json" and has the length of its parts |
| AnalyzerSpec.ReportFileNameInjective | src/main/java/org/calypsonet/tool/calypso/card/Tool_AnalyzeCardFileStructure.java:305-313 | for date strings of one length, distinct dates or serial numbers give distinct file names |
| Analyzer.FillFilesTable | src/main/java/org/calypsonet/tool/calypso/card/Tool_AnalyzeCardFileStructure.java:65-91 | the walk fails exactly when its last selection raises an exception other than a status error or a failed file selection, and otherwise returns the table the walk leaves |
| Analyzer.ReadRecords | src/main/java/org/calypsonet/tool/calypso/card/Tool_AnalyzeCardFileStructure.java:103-114 | the loop succeeds exactly when every read succeeds, and then leaves the records the specification gives |
| Analyzer.GetFileData | src/main/java/org/calypsonet/tool/calypso/card/Tool_AnalyzeCardFileStructure.java:93-118 | a fresh descriptor of the file with its records, or the read failure, exactly when a read fails |
| Analyzer.ReadFiles | src/main/java/org/calypsonet/tool/calypso/card/Tool_AnalyzeCardFileStructure.java:164-168 | the loop over the walk's table succeeds exactly when every file's reads do, and then holds one descriptor per file of it in table order |
| Analyzer.AddFileData | src/main/java/org/calypsonet/tool/calypso/card/Tool_AnalyzeCardFileStructure.java:166-167 | one turn appends the next file's descriptor exactly when its reads succeed |
| Analyzer.AppendAnalysed | src/main/java/org/calypsonet/tool/calypso/card/Tool_AnalyzeCardFileStructure.java:167 | appending the next file's descriptor keeps the list analysed |
| Analyzer.GetApplicationData | src/main/java/org/calypsonet/tool/calypso/card/Tool_AnalyzeCardFileStructure.java:146-171 | success exactly when the AID selects an analysable application, giving a fresh descriptor with one file per entry of the table its walk leaves; otherwise the failure is, in this order of precedence, no application selected, a failed CURRENT_DF, an uncaught selection failure in the walk or a failed read |
| Analyzer.CollectDfNames | src/main/java/org/calypsonet/tool/calypso/card/Tool_AnalyzeCardFileStructure.java:224-229 | the collecting loop yields the names the specification lists |
| Analyzer.GetApplicationsData | src/main/java/org/calypsonet/tool/calypso/card/Tool_AnalyzeCardFileStructure.java:220-234 | no exception exactly when every collected name analyses; the document then gains one descriptor per name, after its unchanged earlier entries |
| Analyzer.GetApplicationsOf | src/main/java/org/calypsonet/tool/calypso/card/Tool_AnalyzeCardFileStructure.java:231-233 | the loop over the names appends one descriptor per name, in order, unless one raises |
| Analyzer.AddApplicationData | src/main/java/org/calypsonet/tool/calypso/card/Tool_AnalyzeCardFileStructure.java:231-233 | one turn of the loop appends the k-th name's descriptor after the earlier ones exactly when that name selects an analysable application |
| Analyzer.AppendApplication | src/main/java/org/calypsonet/tool/calypso/card/Tool_AnalyzeCardFileStructure.java:232 | appending the k-th descriptor keeps the names' descriptors in order |
| Analyzer.GetTraceabilityInfo | src/main/java/org/calypsonet/tool/calypso/card/Tool_AnalyzeCardFileStructure.java:173-218 | no prefix selects: null; otherwise the first selecting prefix's GET DATA, where only an error other than a status error fails |
| Analyzer.AnalyzeCard | src/main/java/org/calypsonet/tool/calypso/card/Tool_AnalyzeCardFileStructure.java:265-329 | no card, no application exactly when no prefix selects, an abort exactly when something is not analysable; a written document describes every collected application, and its name and id come from the first one's serial number |
| Analyzer.AnalyzeCardWith | src/main/java/org/calypsonet/tool/calypso/card/Tool_AnalyzeCardFileStructure.java:283-324 | the same outcomes over any prefix list |
| Analyzer.GatherApplications | src/main/java/org/calypsonet/tool/calypso/card/Tool_AnalyzeCardFileStructure.java:294-296 | the loop over the prefixes raises nothing exactly when every name analyses, and then describes every name in order |
| Analyzer.AnalyzePrefix | src/main/java/org/calypsonet/tool/calypso/card/Tool_AnalyzeCardFileStructure.java:295 | one prefix's descriptors follow those of the earlier names |
| KeypleAnalyzer.FilesAnalysedAppend | src/main/java/org/cna/keyple/tool/calypso/card/Tool_AnalyzeCardFileStructure.java:139-143 | appending the descriptor of the next file keeps the file list analysed |
| KeypleAnalyzer.AllAnalysableConcat | src/main/java/org/cna/keyple/tool/calypso/card/Tool_AnalyzeCardFileStructure.java:247-251 | two lists of applications analyse together exactly when each does |
| KeypleAnalyzer.AppsAnalysedConcat | src/main/java/org/cna/keyple/tool/calypso/card/Tool_AnalyzeCardFileStructure.java:247-251 | descriptors of two lists, one after the other, describe the concatenated list |
| KeypleAnalyzer.AllAnalysablePrefix | src/main/java/org/cna/keyple/tool/calypso/card/Tool_AnalyzeCardFileStructure.java:247-251 | a run that analyses all applications also analyses those of every leading run of prefixes |
| KeypleAnalyzer.TraceabilityStatusError | src/main/java/org/cna/keyple/tool/calypso/card/Tool_AnalyzeCardFileStructure.java:173-174 | a GET DATA status error ends the older run, while the newer one goes on |
| KeypleAnalyzer.AnalysableInBoth | src/main/java/org/cna/keyple/tool/calypso/card/Tool_AnalyzeCardFileStructure.java:52-78 | an application the older analyzer completes, the newer one completes too |
| KeypleAnalyzer.WalkSelectFileError | src/main/java/org/cna/keyple/tool/calypso/card/Tool_AnalyzeCardFileStructure.java:57 | a walk ending on a failed file selection aborts the older analysis but not the newer one |
| KeypleAnalyzer.AnalysedExample | src/main/java/org/cna/keyple/tool/calypso/card/Tool_AnalyzeCardFileStructure.java:135-143 | the descriptor of an application walked over tables of 1, 2, 3 and 3 files holds three files, those of the last table, in order |
| KeypleAnalyzer.AnalysedFirstEfFails | src/main/java/org/cna/keyple/tool/calypso/card/Tool_AnalyzeCardFileStructure.java:54-59 | the descriptor of an application whose FIRST_EF fails holds no file |
| KeypleAnalyzer.FillFilesTable | src/main/java/org/cna/keyple/tool/calypso/card/Tool_AnalyzeCardFileStructure.java:52-78 | the walk fails exactly when its last selection raises anything but a status error, and otherwise returns the table the walk leaves, the same as the newer walk's |
| KeypleAnalyzer.ReadRecords | src/main/java/org/cna/keyple/tool/calypso/card/Tool_AnalyzeCardFileStructure.java:90-100 | the loop succeeds exactly when every read succeeds, and then leaves the records the specification gives |
| KeypleAnalyzer.GetFileData | src/main/java/org/cna/keyple/tool/calypso/card/Tool_AnalyzeCardFileStructure.java:80-104 | a fresh descriptor of the file with its records, or the read failure, exactly when a read fails |
| KeypleAnalyzer.ReadFiles | src/main/java/org/cna/keyple/tool/calypso/card/Tool_AnalyzeCardFileStructure.java:137-143 | the loop over the walk's table succeeds exactly when every file's reads do, and then holds one descriptor per file of it in table order |
| KeypleAnalyzer.AddFileData | src/main/java/org/cna/keyple/tool/calypso/card/Tool_AnalyzeCardFileStructure.java:141-142 | one turn appends the next file's descriptor exactly when its reads succeed |
| KeypleAnalyzer.AppendAnalysed | src/main/java/org/cna/keyple/tool/calypso/card/Tool_AnalyzeCardFileStructure.java:142 | appending the next file's descriptor keeps the list analysed |
| KeypleAnalyzer.GetApplicationData | src/main/java/org/cna/keyple/tool/calypso/card/Tool_AnalyzeCardFileStructure.java:106-146 | null exactly when occurrence k does not exist; otherwise success exactly when it analyses, giving a fresh descriptor with one file per entry of the table its walk leaves, and failing on CURRENT_DF, the walk or a read, in that order |
| KeypleAnalyzer.GetApplicationsData | src/main/java/org/cna/keyple/tool/calypso/card/Tool_AnalyzeCardFileStructure.java:183-192 | no exception exactly when every occurrence analyses; the document then gains one descriptor per occurrence, after its unchanged earlier entries |
| KeypleAnalyzer.AddApplicationData | src/main/java/org/cna/keyple/tool/calypso/card/Tool_AnalyzeCardFileStructure.java:183-192 | one turn of the loop reports the end exactly when occurrence k does not exist, appends its descriptor after the earlier ones exactly when it analyses, and otherwise leaves the list as it was |
| KeypleAnalyzer.AppendApplication | src/main/java/org/cna/keyple/tool/calypso/card/Tool_AnalyzeCardFileStructure.java:189 | appending the k-th descriptor keeps the occurrences' descriptors in order |
| KeypleAnalyzer.GetTraceabilityInfo | src/main/java/org/cna/keyple/tool/calypso/card/Tool_AnalyzeCardFileStructure.java:148-181 | no prefix selects: null; otherwise the first selecting prefix's GET DATA, where any outcome but success fails |
| KeypleAnalyzer.AnalyzeCard | src/main/java/org/cna/keyple/tool/calypso/card/Tool_AnalyzeCardFileStructure.java:215-286 | the same outcomes as the newer run over the older prefix list, with the older error handling and the software name "Keyple" |
| KeypleAnalyzer.AnalyzeCardWith | src/main/java/org/cna/keyple/tool/calypso/card/Tool_AnalyzeCardFileStructure.java:236-279 | the same outcomes over any prefix list |
| KeypleAnalyzer.GatherApplications | src/main/java/org/cna/keyple/tool/calypso/card/Tool_AnalyzeCardFileStructure.java:247-251 | the loop over the prefixes raises nothing exactly when every occurrence analyses, and then describes every occurrence in order |
| KeypleAnalyzer.AnalyzePrefix | src/main/java/org/cna/keyple/tool/calypso/card/Tool_AnalyzeCardFileStructure.java:250 | one prefix's descriptors follow those of the earlier applications |

## Left out

- Reader setup (`initReaders`, `getCardReaderName`, plugin registration) and `unlockSam`: the model starts from a present or absent card (`isCardPresent`).
- The card API (selection scenarios, `CardTransactionManager`, APDU exchange): replaced by the `CardApi.Card` oracle, which gives, per AID, the applications its FIRST/NEXT selections reach and, per application, its file-selection answers, records and GET DATA outcome.
- Gson, reading the reference JSON file and writing the report JSON file, `FileReader`/`FileWriter` and their `IOException`: the checker receives the reference as a list of application views, the analyzer returns the document and its file name.
- The logger and every `print` method: a discrepancy message of the checker is a `Report` value; purely informative lines are not modelled.
- `Date` and `SimpleDateFormat`: the two formatted readings of the clock are the parameters `creationDate` and `dateString`.
- `ByteArrayUtil.extractLong` and `ToolUtils.bytesToLong`: given as the function parameters `extractLong` and `bytesToLong`, so the serial number's numeric value is whatever they return.
- Command-line arguments and `System.exit`: not modelled; a run's outcome is a value.
- The checker's call of `getApplicationsData` on a live card: the parameter `discover` stands for its result, the list of discovered application views for an AID or the exception it raises.
- The `NullPointerException` and `NumberFormatException` a malformed reference document would raise (a missing access condition, an unparsable application type) are preconditions (`AcsPresent`, `AppTypesParse`, `FileCheckable`, `FilesCheckable`, `AppCheckable`, `RunCheckable`), not modelled exceptions.
- CheckCardFileStructure.Checker.CheckDataRef: requires the linked LID and the value read to be present, which they always are for the references `checkCardFileData` builds.
- The newer `FileReference` (src/main/java/org/calypsonet/tool/calypso/carddata/FileReference.java:30-39 and 57-59) is the value `CardData.FileReference` stored in the checker's `seq`; `setReferenceFoundFlag(true)` is an update of that element. Only `dataRefStatus` ever holds these objects, so no aliasing is lost. The older `FileReference` keeps its mutable flag as `KeypleCardData.FileReference`.
- The calypsonet `ToolUtils` is not part of this model; the newer classes are modelled with the cna `ToolUtils` tables. `HexUtil` is not part of this model either; its `toHex` is modelled from its documented output (two digits per byte, four per short, the shortest even width for an int).
- `CardStructureData` of the older generation (src/main/java/org/cna/keyple/tool/calypso/carddata/CardStructureData.java:35-56 and 108-110) has the same fields and behaviour as the newer one and shares `CardData.CardStructureData`.
- The descriptor classes keep the `ElementaryFile` or `CalypsoCard` they are built from (`fileInfo`, `appData`) so that their fields can be defined over it; the Java objects copy the values and drop the reference.
- The table of the selected application's card object, which each successful EF selection fills in place, is the table each `Selected` outcome carries; `FillFilesTable` returns the table of the last successful selection instead of leaving it in the card object, and `getFiles() == null` is an empty table.
- Every EF selection failure other than an unexpected status word or a failed file selection is the one outcome `SelectOtherError`; neither walk catches it.
- The cna `AccessConditions` class (used by src/main/java/org/cna/keyple/tool/calypso/carddata/CardFileData.java:66-67 and by the older `CardApplicationData`) is not part of this model; the older descriptors build their access-condition groups with the calypsonet `CardData.NewAccessConditions`, so the two classes are taken to be the same.
- Record numbers above 127: Java requests record `(byte) (i + 1)`, which is then negative, but stores `getContent(i + 1)`, looked up by the int number, which may be null (src/main/java/org/calypsonet/tool/calypso/card/Tool_AnalyzeCardFileStructure.java:108-113). The oracle `readRecord` answers by the byte and always gives the content it stores, so that null content is not modelled.
- JavaText.ParseHex: only the ASCII digits `0-9`, `a-f` and `A-F` are modelled. `Integer.parseInt(s, 16)` and `Integer.valueOf(s, 16)` take each digit through `Character.digit`, which also accepts other Unicode decimal digits and the fullwidth letters A-F. For a reference string written with such digits (an application type in `checkApplicationType`, say), Java parses a value where the model raises the `NumberFormatException`, through `AppTypesParse`.
- `getEfTypeIntValue`'s `default` branch, which returns 0: the Java switch covers every enum constant, so it cannot be reached and the model has no such case.
- `RecordData` stores a copy of the array it is given; the model's record is a value holding the elements, so the copy's independence from the caller's array holds by construction rather than being proved.
- CheckCardFileStructure.CheckFilesPrefix: only the prefix property of checking a longer reference list is stated, not that checking two lists is checking one and then the other.
- The getters of the descriptors that only return a field are the class's fields themselves; only those whose result differs from a field (`getFileTypeName`) or that the checker reads through a view (`View`) are members.

## Findings

| source | as written | input that shows it | evidently intended | confidence | as-written member | corrected member |
|---|---|---|---|---|---|---|
| src/main/java/org/cna/keyple/tool/calypso/carddata/CardFileData.java:86-88 | `getFileTypeName` returns `efType`, the two-digit type code | any file, e.g. a linear file, gives "02" instead of "Linear" | it returns `efTypeName`, the long name computed at construction (line 55) | not executed | KeypleCardData.CardFileData.FileTypeNameAsWritten (with KeypleCardData.FileTypeNameIsTheCode) | KeypleCardData.CardFileData.FileTypeName |
