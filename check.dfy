/** The structure check (`Tool_CheckCardFileStructure`): a reference structure, loaded from a
    document written earlier, is compared with the structure the analyzer discovers on the card.
    Every discrepancy the tool logs is a `Report`; a run's log is the sequence of its reports.
    Reference fields are optional (a field missing from the document is Java `null` and is not
    checked). The comparisons are pure functions of the two structures; the cross-reference
    resolver keeps a growing list of `FileReference` objects whose resolved flags it sets, and is
    the class `Checker`, proved against the step functions on its abstract state. */
module CheckCardFileStructure {
  import opened Wrappers
  import opened JavaText
  import opened CardApi
  import opened CardData

  // ================================================================ reports

  /** One logged discrepancy, in the order of the messages of the tool. */
  datatype Report =
    | Mismatch(field: string, expected: string, found: Option<string>)
        // "Expected <field> to be [..] and found [..]."
    | AcMismatch(group: nat, expected: string, found: Option<string>)
    | KeyLevelMissing(group: nat, accessCondition: string)
        // the reference gives a condition that needs a key level, and no key level
    | KeyLevelMismatch(group: nat, expected: string, found: Option<string>)
    | FlagMismatch(flag: string, expectedBit: int, foundBit: int)
        // one of the four configuration flags of the application type
    | NoSfi                                   // "File doesn't have an SFI defined."
    | NoMatchingFile(sfi: string)
    | DataRefMissing                          // "DataRef field not present in the card!"
    | DataRefMismatch(baseLid: Option<string>, refValue: Option<string>,
                      linkedBaseLid: Option<string>, linkedRefValue: Option<string>)
    | FileCountMismatch(expectedCount: nat, foundCount: nat)
    | ApplicationNotPresent
    | TooManyApplications(count: nat)         // more than one application for the AID
    | Unresolved(baseLid: Option<string>, linkedLid: Option<string>)
        // "No/Incorrect data ref found for file .. Should be linked with file .."

  // ================================================================ field checks

  /** `checkString`: a report exactly when the reference gives a value and the value read is
      not that one; a missing reference value is never reported, a missing value read always
      is (Java `equals(null)` is false). */
  function CheckString(name: string, toCheck: Option<string>, read: Option<string>): (r: seq<Report>)
    ensures |r| <= 1
    ensures r != [] <==> toCheck.Some? && toCheck != read
    ensures r != [] ==> r[0] == Mismatch(name, toCheck.value, read)
  {
    if toCheck.Some? && toCheck != read then [Mismatch(name, toCheck.value, read)] else []
  }

  /** A field compared with `checkString`: its name in the messages, the reference value and
      the value read. */
  datatype Field = Field(name: string, toCheck: Option<string>, read: Option<string>)

  /** A field agrees when the reference gives no value or the value read is that one. */
  predicate FieldAgrees(f: Field) {
    f.toCheck.Some? ==> f.toCheck == f.read
  }

  /** `checkString` on each field of a list, in order. */
  function CheckFields(fields: seq<Field>): (r: seq<Report>)
    ensures |r| <= |fields|
  {
    if fields == [] then []
    else CheckString(fields[0].name, fields[0].toCheck, fields[0].read) + CheckFields(fields[1..])
  }

  /** A list of fields is silent exactly when every field agrees. */
  lemma {:induction false} CheckFieldsSilent(fields: seq<Field>)
    ensures CheckFields(fields) == [] <==> forall i :: 0 <= i < |fields| ==> FieldAgrees(fields[i])
  {
    if fields != [] {
      CheckFieldsSilent(fields[1..]);
      assert forall i :: 1 <= i < |fields| ==> fields[i] == fields[1..][i - 1];
    }
  }

  /** The access conditions that come with a key level: session (10), confidential (14) and
      confidential with PIN (15). */
  predicate NeedsKeyLevel(ac: string) {
    ac == "10" || ac == "14" || ac == "15"
  }

  /** `checkAccessCondition` for group `group`. The reference condition is dereferenced
      unguarded, so it must be given. The key level is compared only for a condition that needs
      one, and its absence from the reference is then a structure error. */
  function CheckAccessCondition(group: nat, toCheck: AccessCondition, read: AccessCondition)
    : (r: seq<Report>)
    requires toCheck.accessCondition.Some?
    ensures !NeedsKeyLevel(toCheck.accessCondition.value) ==>
      |r| <= 1 && (r != [] <==> toCheck.accessCondition != read.accessCondition)
    ensures NeedsKeyLevel(toCheck.accessCondition.value) ==>
      |r| == (if toCheck.accessCondition != read.accessCondition then 1 else 0)
             + (if toCheck.keyLevel != read.keyLevel || toCheck.keyLevel.None? then 1 else 0)
    ensures toCheck.keyLevel.None? && NeedsKeyLevel(toCheck.accessCondition.value) ==>
      r[|r| - 1] == KeyLevelMissing(group, toCheck.accessCondition.value)
  {
    var ac := toCheck.accessCondition.value;
    (if toCheck.accessCondition != read.accessCondition
     then [AcMismatch(group, ac, read.accessCondition)] else [])
    + (if !NeedsKeyLevel(ac) then []
       else if toCheck.keyLevel.None? then [KeyLevelMissing(group, ac)]
       else if toCheck.keyLevel != read.keyLevel
       then [KeyLevelMismatch(group, toCheck.keyLevel.value, read.keyLevel)]
       else [])
  }

  /** Every group of the reference gives its access condition. */
  predicate AcsPresent(acs: AccessConditions) {
    acs.group0.accessCondition.Some? && acs.group1.accessCondition.Some?
    && acs.group2.accessCondition.Some? && acs.group3.accessCondition.Some?
  }

  /** `checkAccessCondition` on groups `k` to 3, in order. */
  function CheckGroupsFrom(toCheck: AccessConditions, read: AccessConditions, k: nat)
    : (r: seq<Report>)
    requires AcsPresent(toCheck) && k <= 4
    ensures |r| <= 2 * (4 - k)
    decreases 4 - k
  {
    if k == 4 then []
    else CheckAccessCondition(k, Group(toCheck, k), Group(read, k))
         + CheckGroupsFrom(toCheck, read, k + 1)
  }

  /** `checkAccessConditions`: the four groups, in order. */
  function CheckAccessConditions(toCheck: AccessConditions, read: AccessConditions): (r: seq<Report>)
    requires AcsPresent(toCheck)
    ensures |r| <= 8
  {
    CheckGroupsFrom(toCheck, read, 0)
  }

  /** A group read agrees with the reference: the same access condition and, when that
      condition needs a key level, a key level given by the reference and read alike. */
  predicate GroupAgrees(toCheck: AccessCondition, read: AccessCondition) {
    toCheck.accessCondition == read.accessCondition
    && (toCheck.accessCondition.Some? && NeedsKeyLevel(toCheck.accessCondition.value) ==>
          toCheck.keyLevel.Some? && toCheck.keyLevel == read.keyLevel)
  }

  /** One group is silent exactly when it agrees. */
  lemma AccessConditionSilent(group: nat, toCheck: AccessCondition, read: AccessCondition)
    requires toCheck.accessCondition.Some?
    ensures CheckAccessCondition(group, toCheck, read) == [] <==> GroupAgrees(toCheck, read)
  {
  }

  /** Groups `k` to 3 are silent exactly when every one of them agrees. */
  lemma {:induction false} CheckGroupsFromSilent(toCheck: AccessConditions, read: AccessConditions,
                                                 k: nat)
    requires AcsPresent(toCheck) && k <= 4
    ensures CheckGroupsFrom(toCheck, read, k) == [] <==>
      forall j :: k <= j < 4 ==> GroupAgrees(Group(toCheck, j), Group(read, j))
    decreases 4 - k
  {
    if k < 4 {
      AccessConditionSilent(k, Group(toCheck, k), Group(read, k));
      CheckGroupsFromSilent(toCheck, read, k + 1);
    }
  }

  /** The four groups are silent exactly when every one of them agrees. */
  lemma AccessConditionsSilent(toCheck: AccessConditions, read: AccessConditions)
    requires AcsPresent(toCheck)
    ensures CheckAccessConditions(toCheck, read) == [] <==>
      forall k :: 0 <= k < 4 ==> GroupAgrees(Group(toCheck, k), Group(read, k))
  {
    CheckGroupsFromSilent(toCheck, read, 0);
  }

  /** A reference condition that needs no key level is satisfied by any key level read. */
  lemma KeyLevelIgnored(group: nat, toCheck: AccessCondition, read: AccessCondition)
    requires toCheck.accessCondition.Some? && !NeedsKeyLevel(toCheck.accessCondition.value)
    requires toCheck.accessCondition == read.accessCondition
    ensures CheckAccessCondition(group, toCheck, read) == []
  {
  }

  // ================================================================ application type

  /** A one-bit mask. */
  type Mask = m: nat | m > 0 witness 1

  /** `v & mask` for a one-bit mask, on a 32-bit two's-complement value (the bit is that of
      the floor of `v / mask`, which Dafny's division gives for a positive divisor). */
  function Bit(v: int, mask: Mask): (r: int)
    ensures r == 0 || r == mask
  {
    (v / mask) % 2 * mask
  }

  /** A configuration flag of the application type: its name in the messages and its bit. */
  datatype Flag = Flag(name: string, mask: Mask)

  /** The flags compared, in order; bit 0x04 is not one of them. */
  const CheckedFlags: seq<Flag> := [Flag("PIN", 0x01), Flag("SV", 0x02),
                                    Flag("Rev 3.2 mode support", 0x08),
                                    Flag("Rev 3.3 PKI mode support", 0x10)]

  /** The report for one flag, giving the two bits. */
  function FlagCheck(flag: Flag, toCheck: int, read: int): (r: seq<Report>)
    ensures r != [] <==> Bit(toCheck, flag.mask) != Bit(read, flag.mask)
    ensures |r| <= 1
  {
    if Bit(toCheck, flag.mask) != Bit(read, flag.mask)
    then [FlagMismatch(flag.name, Bit(toCheck, flag.mask), Bit(read, flag.mask))]
    else []
  }

  /** Each flag of a list compared, in order. */
  function FlagChecks(flags: seq<Flag>, toCheck: int, read: int): (r: seq<Report>)
    ensures |r| <= |flags|
    ensures forall k :: 0 <= k < |r| ==> r[k].FlagMismatch?
  {
    if flags == [] then []
    else FlagCheck(flags[0], toCheck, read) + FlagChecks(flags[1..], toCheck, read)
  }

  /** The flags are silent exactly when the two types agree on each of their bits. */
  lemma {:induction false} FlagChecksSilent(flags: seq<Flag>, toCheck: int, read: int)
    ensures FlagChecks(flags, toCheck, read) == [] <==>
      forall i :: 0 <= i < |flags| ==> Bit(toCheck, flags[i].mask) == Bit(read, flags[i].mask)
  {
    if flags != [] {
      FlagChecksSilent(flags[1..], toCheck, read);
      assert forall i :: 1 <= i < |flags| ==> flags[i] == flags[1..][i - 1];
    }
  }

  /** Both application types parse in base 16 when both are given (`Integer.parseInt` raises
      otherwise). */
  predicate AppTypesParse(toCheck: Option<string>, read: Option<string>) {
    toCheck.Some? && read.Some? ==> ParseHex(toCheck.value).Some? && ParseHex(read.value).Some?
  }

  /** `checkApplicationType`: silent when either value is missing; a reference type from 06 to
      1F is compared as a string, any other by its four flags. */
  function CheckApplicationType(toCheck: Option<string>, read: Option<string>): (r: seq<Report>)
    requires AppTypesParse(toCheck, read)
    ensures toCheck.None? || read.None? ==> r == []
    ensures toCheck.Some? && read.Some? && 0x06 <= ParseHex(toCheck.value).value <= 0x1F ==>
      r == CheckString("Application Type", toCheck, read)
    ensures toCheck.Some? && read.Some? && !(0x06 <= ParseHex(toCheck.value).value <= 0x1F) ==>
      |r| <= 4 && forall k :: 0 <= k < |r| ==> r[k].FlagMismatch?
  {
    if toCheck.None? || read.None? then []
    else
      var typeToCheck := ParseHex(toCheck.value).value;
      var typeRead := ParseHex(read.value).value;
      if 0x06 <= typeToCheck <= 0x1F then CheckString("Application Type", toCheck, read)
      else FlagChecks(CheckedFlags, typeToCheck, typeRead)
  }

  /** Types that agree on the four flags give no report, whatever their bit 0x04. */
  lemma FlagsAgreeSilent(toCheck: int, read: int)
    requires Bit(toCheck, 0x01) == Bit(read, 0x01) && Bit(toCheck, 0x02) == Bit(read, 0x02)
    requires Bit(toCheck, 0x08) == Bit(read, 0x08) && Bit(toCheck, 0x10) == Bit(read, 0x10)
    ensures FlagChecks(CheckedFlags, toCheck, read) == []
  {
    FlagChecksSilent(CheckedFlags, toCheck, read);
  }

  /** Expected 03 and read 01 differ in the SV flag only: exactly one report. */
  lemma SvFlagExample()
    ensures AppTypesParse(Some("03"), Some("01"))
         && CheckApplicationType(Some("03"), Some("01")) == [FlagMismatch("SV", 2, 0)]
  {
    assert ParseHex("03") == Some(3) by { assert HexValue("03") == 3; }
    assert ParseHex("01") == Some(1) by { assert HexValue("01") == 1; }
    var flags := CheckedFlags;
    assert Bit(3, 0x08) == Bit(1, 0x08) == 0 && Bit(3, 0x10) == Bit(1, 0x10) == 0;
    assert FlagChecks(flags[2..], 3, 1) == [] by {
      FlagChecksSilent(flags[2..], 3, 1);
    }
    assert Bit(3, 0x01) == Bit(1, 0x01) == 1 && Bit(3, 0x02) == 2 && Bit(1, 0x02) == 0;
    assert FlagChecks(flags[1..], 3, 1) == [FlagMismatch("SV", 2, 0)] + FlagChecks(flags[2..], 3, 1);
  }

  /** Expected 04 and read 00 differ only in bit 0x04, which is never checked. */
  lemma Bit4Example()
    ensures AppTypesParse(Some("04"), Some("00"))
         && CheckApplicationType(Some("04"), Some("00")) == []
  {
    assert ParseHex("04") == Some(4) by { assert HexValue("04") == 4; }
    assert ParseHex("00") == Some(0) by { assert HexValue("00") == 0; }
    assert Bit(4, 0x01) == Bit(0, 0x01) && Bit(4, 0x02) == Bit(0, 0x02);
    assert Bit(4, 0x08) == Bit(0, 0x08) && Bit(4, 0x10) == Bit(0, 0x10);
    FlagsAgreeSilent(4, 0);
  }

  /** In the range compared as strings, "6" and "06" differ although they are the same type. */
  lemma TextualTypeExample()
    ensures AppTypesParse(Some("6"), Some("06"))
         && CheckApplicationType(Some("6"), Some("06"))
         == [Mismatch("Application Type", "6", Some("06"))]
  {
    assert ParseHex("6") == Some(6) by { assert HexValue("6") == 6; }
    assert ParseHex("06") == Some(6) by { assert HexValue("06") == 6; }
  }

  // ================================================================ the resolver's state

  /** `a` is a prefix of `b`, element by element. */
  ghost predicate Prefix<T>(a: seq<T>, b: seq<T>) {
    |a| <= |b| && forall i :: 0 <= i < |a| ==> a[i] == b[i]
  }

  /** What a check has done so far: the resolver's list and the reports logged. */
  datatype CheckState = CheckState(entries: seq<FileReference>, reports: seq<Report>)

  function Log(s: CheckState, rs: seq<Report>): (r: CheckState)
    ensures r.entries == s.entries && r.reports == s.reports + rs
  {
    s.(reports := s.reports + rs)
  }

  /** The index of the first stored entry linked to the file with LID `lid`. */
  function FirstLinked(entries: seq<FileReference>, lid: Option<string>): (r: Option<nat>)
    ensures r.Some? ==>
      r.value < |entries| && entries[r.value].linkedFileLid == lid
      && forall j :: 0 <= j < r.value ==> entries[j].linkedFileLid != lid
    ensures r.None? ==> forall j :: 0 <= j < |entries| ==> entries[j].linkedFileLid != lid
  {
    if entries == [] then None
    else if entries[0].linkedFileLid == lid then Some(0)
    else
      match FirstLinked(entries[1..], lid)
      case None => None
      case Some(k) => Some(k + 1)
  }

  lemma {:induction false} FirstLinkedIs(entries: seq<FileReference>, lid: Option<string>, i: nat)
    requires i < |entries| && entries[i].linkedFileLid == lid
    requires forall j :: 0 <= j < i ==> entries[j].linkedFileLid != lid
    ensures FirstLinked(entries, lid) == Some(i)
  {
    if i > 0 {
      FirstLinkedIs(entries[1..], lid, i - 1);
    }
  }

  lemma {:induction false} FirstLinkedNone(entries: seq<FileReference>, lid: Option<string>)
    requires forall j :: 0 <= j < |entries| ==> entries[j].linkedFileLid != lid
    ensures FirstLinked(entries, lid) == None
  {
    if entries != [] {
      FirstLinkedNone(entries[1..], lid);
    }
  }

  /** `checkDataRef` on the state: the first stored entry linked to the newcomer's file is
      marked found when the two values agree, and otherwise a mismatch is reported; in both
      cases the newcomer is dropped. With no such entry the newcomer is stored at the end. */
  function CheckDataRefStep(s: CheckState, ref: FileReference): (r: CheckState)
    ensures |r.entries| >= |s.entries| && Prefix(s.reports, r.reports)
  {
    match FirstLinked(s.entries, ref.baseFileLid)
    case None => s.(entries := s.entries + [ref])
    case Some(i) =>
      if s.entries[i].refValueRead == ref.refValueRead
      then s.(entries := s.entries[i := s.entries[i].(referenceFoundFlag := true)])
      else Log(s, [DataRefMismatch(ref.baseFileLid, ref.refValueRead, s.entries[i].baseFileLid,
                                   s.entries[i].refValueRead)])
  }

  /** With a counterpart: only the first one is examined, the list keeps its length, the
      counterpart's flag is set exactly when the values agree (and stays as it was otherwise),
      no other entry changes, and a mismatch is reported. */
  lemma CheckDataRefCounterpart(s: CheckState, ref: FileReference)
    requires FirstLinked(s.entries, ref.baseFileLid).Some?
    ensures var i := FirstLinked(s.entries, ref.baseFileLid).value;
      var t := CheckDataRefStep(s, ref);
      && |t.entries| == |s.entries|
      && t.entries[i] == s.entries[i].(referenceFoundFlag := s.entries[i].referenceFoundFlag
                                                || s.entries[i].refValueRead == ref.refValueRead)
      && (forall j :: 0 <= j < |s.entries| && j != i ==> t.entries[j] == s.entries[j])
      && t.reports == s.reports + (if s.entries[i].refValueRead == ref.refValueRead then []
                                   else [DataRefMismatch(ref.baseFileLid, ref.refValueRead,
                                                         s.entries[i].baseFileLid,
                                                         s.entries[i].refValueRead)])
  {
  }

  /** Without a counterpart the newcomer is appended as it is, and nothing is reported. */
  lemma CheckDataRefNoCounterpart(s: CheckState, ref: FileReference)
    requires FirstLinked(s.entries, ref.baseFileLid).None?
    ensures CheckDataRefStep(s, ref) == CheckState(s.entries + [ref], s.reports)
  {
  }

  /** The reports of the final pass: one per entry whose flag is still unset, in list order. */
  function UnresolvedReports(entries: seq<FileReference>): (r: seq<Report>)
    ensures |r| <= |entries|
  {
    if entries == [] then []
    else
      var last := entries[|entries| - 1];
      UnresolvedReports(entries[..|entries| - 1])
      + (if last.referenceFoundFlag then [] else [Unresolved(last.baseFileLid, last.linkedFileLid)])
  }

  /** The final pass over a list is the pass over its first part followed by the pass over
      the rest: each entry is reported at most once, in list order. */
  lemma {:induction false} UnresolvedReportsConcat(es1: seq<FileReference>, es2: seq<FileReference>)
    ensures UnresolvedReports(es1 + es2) == UnresolvedReports(es1) + UnresolvedReports(es2)
    decreases |es2|
  {
    if es2 == [] {
      assert es1 + es2 == es1;
    } else {
      var init := es2[..|es2| - 1];
      assert (es1 + es2)[..|es1 + es2| - 1] == es1 + init;
      UnresolvedReportsConcat(es1, init);
    }
  }

  /** The final pass is silent exactly when every entry is resolved. */
  lemma {:induction false} UnresolvedReportsSilent(entries: seq<FileReference>)
    ensures UnresolvedReports(entries) == [] <==> forall j :: 0 <= j < |entries| ==> entries[j].referenceFoundFlag
  {
    if entries != [] {
      var init := entries[..|entries| - 1];
      UnresolvedReportsSilent(init);
      assert forall j :: 0 <= j < |init| ==> init[j] == entries[j];
    }
  }

  /** Two files that name each other with the same value: the first is stored, the second
      marks it found and is not stored, and nothing is reported, not even at the end. */
  lemma MutualReferenceResolves(lidA: string, lidB: string, value: string)
    requires lidA != lidB
    ensures var s1 := CheckDataRefStep(CheckState([], []),
                                       FileReference(Some(lidA), Some(lidB), Some(value), false));
      var s2 := CheckDataRefStep(s1, FileReference(Some(lidB), Some(lidA), Some(value), false));
      && s2.entries == [FileReference(Some(lidA), Some(lidB), Some(value), true)]
      && s2.reports == [] && UnresolvedReports(s2.entries) == []
  {
    var s1 := CheckDataRefStep(CheckState([], []),
                               FileReference(Some(lidA), Some(lidB), Some(value), false));
    assert s1.entries == [FileReference(Some(lidA), Some(lidB), Some(value), false)];
    FirstLinkedIs(s1.entries, Some(lidB), 0);
  }

  /** The same two files with different values: the mismatch is reported when the second is
      checked, and the first stays unresolved. */
  lemma MutualReferenceMismatch(lidA: string, lidB: string, valueA: string, valueB: string)
    requires lidA != lidB && valueA != valueB
    ensures var s1 := CheckDataRefStep(CheckState([], []),
                                       FileReference(Some(lidA), Some(lidB), Some(valueA), false));
      var s2 := CheckDataRefStep(s1, FileReference(Some(lidB), Some(lidA), Some(valueB), false));
      && s2.entries == s1.entries
      && s2.reports == [DataRefMismatch(Some(lidB), Some(valueB), Some(lidA), Some(valueA))]
      && UnresolvedReports(s2.entries) == [Unresolved(Some(lidA), Some(lidB))]
  {
    var s1 := CheckDataRefStep(CheckState([], []),
                               FileReference(Some(lidA), Some(lidB), Some(valueA), false));
    assert s1.entries == [FileReference(Some(lidA), Some(lidB), Some(valueA), false)];
    FirstLinkedIs(s1.entries, Some(lidB), 0);
    assert s1.entries[..0] == [];
  }

  // ================================================================ files

  /** The index of the first discovered file with SFI `sfi`. */
  function FirstSameSfi(sfi: string, files: seq<FileView>): (r: Option<nat>)
    ensures r.Some? ==>
      r.value < |files| && files[r.value].sfi == Some(sfi)
      && forall j :: 0 <= j < r.value ==> files[j].sfi != Some(sfi)
    ensures r.None? ==> forall j :: 0 <= j < |files| ==> files[j].sfi != Some(sfi)
  {
    if files == [] then None
    else if files[0].sfi == Some(sfi) then Some(0)
    else
      match FirstSameSfi(sfi, files[1..])
      case None => None
      case Some(k) => Some(k + 1)
  }

  lemma {:induction false} FirstSameSfiIs(sfi: string, files: seq<FileView>, i: nat)
    requires i < |files| && files[i].sfi == Some(sfi)
    requires forall j :: 0 <= j < i ==> files[j].sfi != Some(sfi)
    ensures FirstSameSfi(sfi, files) == Some(i)
  {
    if i > 0 {
      FirstSameSfiIs(sfi, files[1..], i - 1);
    }
  }

  lemma {:induction false} FirstSameSfiNone(sfi: string, files: seq<FileView>)
    requires forall j :: 0 <= j < |files| ==> files[j].sfi != Some(sfi)
    ensures FirstSameSfi(sfi, files) == None
  {
    if files != [] {
      FirstSameSfiNone(sfi, files[1..]);
    }
  }

  /** The field comparisons of `checkCardFileData` for a matching file. */
  function FileReports(toCheck: FileView, read: FileView): (r: seq<Report>)
    requires AcsPresent(toCheck.accessConditions)
    ensures |r| <= 12
  {
    CheckFields([Field("LID", toCheck.lid, read.lid), Field("EF Type", toCheck.efType, read.efType),
                 Field("Record Size", toCheck.recSize, read.recSize),
                 Field("Number of Records", toCheck.numRec, read.numRec)])
    + CheckAccessConditions(toCheck.accessConditions, read.accessConditions)
  }

  /** What `checkCardFileData` dereferences: the groups of a reference file that has a match. */
  predicate FileCheckable(toCheck: FileView, files: seq<FileView>) {
    toCheck.sfi.Some? && FirstSameSfi(toCheck.sfi.value, files).Some? ==>
      AcsPresent(toCheck.accessConditions)
  }

  /** The data-reference part of `checkCardFileData` for a matching file: nothing when the
      reference file has no data reference; a report when the file read has none; otherwise the
      resolver gets the reference file's LID, its data reference and the value read. */
  function DataRefStep(s: CheckState, toCheck: FileView, read: FileView): (r: CheckState)
    ensures |r.entries| >= |s.entries| && Prefix(s.reports, r.reports)
  {
    if toCheck.dataRef.None? then s
    else if read.dataRef.None? then Log(s, [DataRefMissing])
    else CheckDataRefStep(s, FileReference(toCheck.lid, toCheck.dataRef, read.dataRef, false))
  }

  /** `checkCardFileData` on the state: a reference file without SFI is a structure error; one
      whose SFI no discovered file has is reported missing; otherwise it is compared with the
      first discovered file with that SFI, field by field and then by its data reference. */
  function CheckFileStep(s: CheckState, toCheck: FileView, files: seq<FileView>): (r: CheckState)
    requires FileCheckable(toCheck, files)
    ensures |r.entries| >= |s.entries| && Prefix(s.reports, r.reports)
  {
    if toCheck.sfi.None? then Log(s, [NoSfi])
    else
      match FirstSameSfi(toCheck.sfi.value, files)
      case None => Log(s, [NoMatchingFile(toCheck.sfi.value)])
      case Some(i) => DataRefStep(Log(s, FileReports(toCheck, files[i])), toCheck, files[i])
  }

  /** A reference file without SFI gives one report and nothing else. */
  lemma NoSfiReported(s: CheckState, toCheck: FileView, files: seq<FileView>)
    requires toCheck.sfi.None?
    ensures CheckFileStep(s, toCheck, files) == CheckState(s.entries, s.reports + [NoSfi])
  {
  }

  /** A reference file that no discovered file matches gives exactly one report and leaves the
      resolver alone. */
  lemma NoMatchReported(s: CheckState, toCheck: FileView, files: seq<FileView>)
    requires toCheck.sfi.Some?
    requires forall j :: 0 <= j < |files| ==> files[j].sfi != toCheck.sfi
    ensures CheckFileStep(s, toCheck, files)
         == CheckState(s.entries, s.reports + [NoMatchingFile(toCheck.sfi.value)])
  {
    FirstSameSfiNone(toCheck.sfi.value, files);
  }

  /** Only the first matching file counts: discovered files after it change nothing. */
  lemma OnlyFirstMatchCompared(s: CheckState, toCheck: FileView, files: seq<FileView>,
                               more: seq<FileView>)
    requires toCheck.sfi.Some? && FirstSameSfi(toCheck.sfi.value, files).Some?
    requires AcsPresent(toCheck.accessConditions)
    ensures CheckFileStep(s, toCheck, files + more) == CheckFileStep(s, toCheck, files)
  {
    var sfi := toCheck.sfi.value;
    var i := FirstSameSfi(sfi, files).value;
    var all := files + more;
    assert all[i] == files[i];
    assert forall j :: 0 <= j < i ==> all[j] == files[j];
    FirstSameSfiIs(sfi, all, i);
  }

  /** `b` holds every entry of `a` at its place, with at most its found flag changed. */
  ghost predicate KeepsEntries(a: seq<FileReference>, b: seq<FileReference>) {
    |a| <= |b| && forall j :: 0 <= j < |a| ==> b[j].(referenceFoundFlag := a[j].referenceFoundFlag) == a[j]
  }

  /** `checkDataRef` only appends to the resolver's list or sets a flag in it. */
  lemma CheckDataRefStepKeepsEntries(s: CheckState, ref: FileReference)
    ensures KeepsEntries(s.entries, CheckDataRefStep(s, ref).entries)
  {
    match FirstLinked(s.entries, ref.baseFileLid)
    case None =>
      assert forall j :: 0 <= j < |s.entries| ==> (s.entries + [ref])[j] == s.entries[j];
    case Some(i) =>
  }

  /** The resolver's list only grows, at its end, and keeps each entry's LIDs and value. */
  lemma CheckFileStepKeepsEntries(s: CheckState, toCheck: FileView, files: seq<FileView>)
    requires FileCheckable(toCheck, files)
    ensures KeepsEntries(s.entries, CheckFileStep(s, toCheck, files).entries)
  {
    if toCheck.sfi.Some? {
      match FirstSameSfi(toCheck.sfi.value, files)
      case None =>
      case Some(i) =>
        var c := Log(s, FileReports(toCheck, files[i]));
        if toCheck.dataRef.Some? && files[i].dataRef.Some? {
          CheckDataRefStepKeepsEntries(c, FileReference(toCheck.lid, toCheck.dataRef, files[i].dataRef, false));
        }
    }
  }

  // ================================================================ applications

  /** The comparisons of `checkCardAppData` before the file list. */
  function AppHeaderReports(toCheck: AppView, read: AppView): (r: seq<Report>)
    requires AcsPresent(toCheck.accessConditions)
    requires AppTypesParse(toCheck.applicationType, read.applicationType)
  {
    CheckFields([Field("Calypso Revision", toCheck.calypsoRevision, read.calypsoRevision),
                 Field("Session Modifications", toCheck.sessionModif, read.sessionModif)])
    + CheckApplicationType(toCheck.applicationType, read.applicationType)
    + CheckFields([Field("Application Subtype", toCheck.applicationSubtype, read.applicationSubtype)])
    + CheckAccessConditions(toCheck.accessConditions, read.accessConditions)
    + CheckFields([Field("KIF1", toCheck.kif1, read.kif1), Field("KIF2", toCheck.kif2, read.kif2),
                   Field("KIF3", toCheck.kif3, read.kif3), Field("KVC1", toCheck.kvc1, read.kvc1),
                   Field("KVC2", toCheck.kvc2, read.kvc2), Field("KVC3", toCheck.kvc3, read.kvc3),
                   Field("LID", toCheck.lid, read.lid)])
  }

  /** The file-count comparison. */
  function CountReport(toCheck: AppView, read: AppView): (r: seq<Report>)
    ensures r != [] <==> |toCheck.fileList| != |read.fileList|
  {
    if |toCheck.fileList| != |read.fileList|
    then [FileCountMismatch(|toCheck.fileList|, |read.fileList|)]
    else []
  }

  /** Every reference file can be checked against the discovered list. */
  predicate FilesCheckable(toCheck: seq<FileView>, files: seq<FileView>) {
    forall k :: 0 <= k < |toCheck| ==> FileCheckable(toCheck[k], files)
  }

  /** The first n reference files checked one after the other, in reference order. */
  function CheckFilesUpTo(s: CheckState, toCheck: seq<FileView>, n: nat, files: seq<FileView>)
    : (r: CheckState)
    requires n <= |toCheck| && FilesCheckable(toCheck, files)
  {
    if n == 0 then s
    else CheckFileStep(CheckFilesUpTo(s, toCheck, n - 1, files), toCheck[n - 1], files)
  }

  /** All reference files checked, in reference order. */
  function CheckFilesStep(s: CheckState, toCheck: seq<FileView>, files: seq<FileView>): (r: CheckState)
    requires FilesCheckable(toCheck, files)
  {
    CheckFilesUpTo(s, toCheck, |toCheck|, files)
  }

  /** Checking files adds reports after those already logged. */
  lemma {:induction false} CheckFilesKeepsReports(s: CheckState, toCheck: seq<FileView>, n: nat,
                                                  files: seq<FileView>)
    requires n <= |toCheck| && FilesCheckable(toCheck, files)
    ensures Prefix(s.reports, CheckFilesUpTo(s, toCheck, n, files).reports)
  {
    if n > 0 {
      CheckFilesKeepsReports(s, toCheck, n - 1, files);
    }
  }

  /** Checking the first files of a longer list is checking them alone. */
  lemma {:induction false} CheckFilesPrefix(s: CheckState, fs1: seq<FileView>, fs2: seq<FileView>,
                                            n: nat, files: seq<FileView>)
    requires n <= |fs1| && FilesCheckable(fs1 + fs2, files) && FilesCheckable(fs1, files)
    ensures CheckFilesUpTo(s, fs1 + fs2, n, files) == CheckFilesUpTo(s, fs1, n, files)
  {
    if n > 0 {
      CheckFilesPrefix(s, fs1, fs2, n - 1, files);
      assert (fs1 + fs2)[n - 1] == fs1[n - 1];
    }
  }

  /** What `checkCardAppData` dereferences and parses. */
  predicate AppCheckable(toCheck: AppView, read: AppView) {
    AcsPresent(toCheck.accessConditions)
    && AppTypesParse(toCheck.applicationType, read.applicationType)
    && FilesCheckable(toCheck.fileList, read.fileList)
  }

  /** `checkCardAppData` on the state: the header fields, the file count, then every reference
      file in reference order, whether the counts agree or not. */
  function CheckAppStep(s: CheckState, toCheck: AppView, read: AppView): (r: CheckState)
    requires AppCheckable(toCheck, read)
  {
    CheckFilesStep(Log(s, AppHeaderReports(toCheck, read) + CountReport(toCheck, read)),
                   toCheck.fileList, read.fileList)
  }

  /** A file-count mismatch is reported and the file checks still follow it. */
  lemma CountMismatchReported(s: CheckState, toCheck: AppView, read: AppView)
    requires AppCheckable(toCheck, read) && |toCheck.fileList| != |read.fileList|
    ensures var before := s.reports + AppHeaderReports(toCheck, read);
      |CheckAppStep(s, toCheck, read).reports| > |before|
      && CheckAppStep(s, toCheck, read).reports[|before|]
         == FileCountMismatch(|toCheck.fileList|, |read.fileList|)
  {
    var header := Log(s, AppHeaderReports(toCheck, read) + CountReport(toCheck, read));
    CheckFilesKeepsReports(header, toCheck.fileList, |toCheck.fileList|, read.fileList);
    var before := s.reports + AppHeaderReports(toCheck, read);
    assert header.reports == before + [FileCountMismatch(|toCheck.fileList|, |read.fileList|)];
    assert header.reports[|before|] == FileCountMismatch(|toCheck.fileList|, |read.fileList|);
  }

  // ================================================================ the tool's run

  /** The dispatch of `main` for one reference application and the applications discovered for
      its AID: none is a report, more than one is a report and no comparison, exactly one is
      compared. */
  function ApplicationStep(s: CheckState, toCheck: AppView, found: seq<AppView>): (r: CheckState)
    requires |found| == 1 ==> AppCheckable(toCheck, found[0])
    ensures |found| == 0 ==> r == Log(s, [ApplicationNotPresent])
    ensures |found| > 1 ==> r == Log(s, [TooManyApplications(|found|)])
  {
    if |found| == 0 then Log(s, [ApplicationNotPresent])
    else if |found| > 1 then Log(s, [TooManyApplications(|found|)])
    else CheckAppStep(s, toCheck, found[0])
  }

  /** Every reference application that `discover` answers with exactly one application can be
      compared with it. */
  predicate RunCheckable(reference: seq<AppView>, discover: string -> Result<seq<AppView>, Failure>) {
    forall k :: 0 <= k < |reference| ==>
      var found := discover(ToHexBytes(reference[k].aid));
      found.Success? && |found.value| == 1 ==> AppCheckable(reference[k], found.value[0])
  }

  /** The loop of `main` over the first n reference applications, from an empty resolver list:
      the state after them and the exception that ended the loop, if any. */
  function RunAppsUpTo(reference: seq<AppView>, n: nat,
                       discover: string -> Result<seq<AppView>, Failure>)
    : (r: (CheckState, Option<Failure>))
    requires n <= |reference| && RunCheckable(reference, discover)
  {
    if n == 0 then (CheckState([], []), None)
    else
      var (s, failure) := RunAppsUpTo(reference, n - 1, discover);
      var toCheck := reference[n - 1];
      if failure.Some? then (s, failure)
      else
        match discover(ToHexBytes(toCheck.aid))
        case Failure(e) => (s, Some(e))
        case Success(found) => (ApplicationStep(s, toCheck, found), None)
  }

  /** The loop of `main` over all reference applications. */
  function RunApps(reference: seq<AppView>, discover: string -> Result<seq<AppView>, Failure>)
    : (r: (CheckState, Option<Failure>))
    requires RunCheckable(reference, discover)
  {
    RunAppsUpTo(reference, |reference|, discover)
  }

  /** A run of the check: the applications, then, when no exception ended the loop, one report
      per reference still unresolved. */
  function RunSpec(reference: seq<AppView>, discover: string -> Result<seq<AppView>, Failure>)
    : (r: (CheckState, Option<Failure>))
    requires RunCheckable(reference, discover)
    ensures r.1.None? ==>
      r.0.reports == RunApps(reference, discover).0.reports
                     + UnresolvedReports(RunApps(reference, discover).0.entries)
  {
    var (s, failure) := RunApps(reference, discover);
    if failure.Some? then (s, failure) else (Log(s, UnresolvedReports(s.entries)), None)
  }

  /** The check tool's state: the list `dataRefStatus` and the reports logged so far. */
  class Checker {
    var dataRefStatus: seq<FileReference>
    var reports: seq<Report>

    /** Every stored reference names a linked file and holds the value read: the tool only
        stores references built from a reference file with a data reference and a discovered
        file with one. */
    predicate Valid()
      reads this
    {
      forall i :: 0 <= i < |dataRefStatus| ==>
        dataRefStatus[i].linkedFileLid.Some? && dataRefStatus[i].refValueRead.Some?
    }

    function State(): (r: CheckState)
      reads this
      ensures r.entries == dataRefStatus && r.reports == reports
    {
      CheckState(dataRefStatus, reports)
    }

    /** `dataRefStatus = new ArrayList<>()`, before any report. */
    constructor ()
      ensures Valid() && dataRefStatus == [] && reports == []
    {
      dataRefStatus := [];
      reports := [];
    }

    /** `checkDataRef`: the scan for the first stored reference linked to the newcomer's file;
        the newcomer is stored only when there is none. */
    method CheckDataRef(refToCheck: FileReference)
      requires Valid() && refToCheck.linkedFileLid.Some? && refToCheck.refValueRead.Some?
      modifies this
      ensures Valid() && State() == CheckDataRefStep(old(State()), refToCheck)
    {
      var i := 0;
      while i < |dataRefStatus|
        invariant 0 <= i <= |dataRefStatus|
        invariant forall j :: 0 <= j < i ==> dataRefStatus[j].linkedFileLid != refToCheck.baseFileLid
      {
        var fileRef := dataRefStatus[i];
        if fileRef.linkedFileLid == refToCheck.baseFileLid {
          FirstLinkedIs(dataRefStatus, refToCheck.baseFileLid, i);
          if fileRef.refValueRead == refToCheck.refValueRead {
            dataRefStatus := dataRefStatus[i := fileRef.(referenceFoundFlag := true)];
          } else {
            reports := reports + [DataRefMismatch(refToCheck.baseFileLid, refToCheck.refValueRead,
                                                  fileRef.baseFileLid, fileRef.refValueRead)];
          }
          return;
        }
        i := i + 1;
      }
      FirstLinkedNone(dataRefStatus, refToCheck.baseFileLid);
      dataRefStatus := dataRefStatus + [refToCheck];
    }

    /** `checkCardFileData`: the scan of the discovered files for the first with the reference
        file's SFI, then its comparison. */
    method CheckCardFileData(toCheck: FileView, fileListRead: seq<FileView>)
      requires Valid() && FileCheckable(toCheck, fileListRead)
      modifies this
      ensures Valid() && State() == CheckFileStep(old(State()), toCheck, fileListRead)
    {
      if toCheck.sfi.None? {
        reports := reports + [NoSfi];
        return;
      }
      var i := 0;
      while i < |fileListRead|
        invariant 0 <= i <= |fileListRead|
        invariant forall j :: 0 <= j < i ==> fileListRead[j].sfi != toCheck.sfi
      {
        var dataRead := fileListRead[i];
        if toCheck.sfi == dataRead.sfi {
          FirstSameSfiIs(toCheck.sfi.value, fileListRead, i);
          CompareFile(toCheck, dataRead);
          return;
        }
        i := i + 1;
      }
      FirstSameSfiNone(toCheck.sfi.value, fileListRead);
      reports := reports + [NoMatchingFile(toCheck.sfi.value)];
    }

    /** The comparison of a reference file with the discovered file that matches it; a data
        reference goes to the resolver as a new `FileReference`, its flag unset. */
    method CompareFile(toCheck: FileView, dataRead: FileView)
      requires Valid() && AcsPresent(toCheck.accessConditions)
      modifies this
      ensures Valid()
      ensures State() == DataRefStep(Log(old(State()), FileReports(toCheck, dataRead)),
                                     toCheck, dataRead)
    {
      reports := reports + FileReports(toCheck, dataRead);
      if toCheck.dataRef.Some? {
        if dataRead.dataRef.None? {
          reports := reports + [DataRefMissing];
        } else {
          CheckDataRef(FileReference(toCheck.lid, toCheck.dataRef, dataRead.dataRef, false));
        }
      }
    }

    /** `checkCardAppData`: the header comparisons and the file count, then every reference file
        against the discovered list, in reference order. */
    method CheckCardAppData(toCheck: AppView, dataRead: AppView)
      requires Valid() && AppCheckable(toCheck, dataRead)
      modifies this
      ensures Valid() && State() == CheckAppStep(old(State()), toCheck, dataRead)
    {
      reports := reports + (AppHeaderReports(toCheck, dataRead) + CountReport(toCheck, dataRead));
      CheckCardFiles(toCheck.fileList, dataRead.fileList);
    }

    /** The loop of `checkCardAppData` over the reference files. */
    method CheckCardFiles(files: seq<FileView>, fileListRead: seq<FileView>)
      requires Valid() && FilesCheckable(files, fileListRead)
      modifies this
      ensures Valid() && State() == CheckFilesStep(old(State()), files, fileListRead)
    {
      var k := 0;
      while k < |files|
        invariant 0 <= k <= |files| && Valid()
        invariant State() == CheckFilesUpTo(old(State()), files, k, fileListRead)
      {
        CheckCardFileData(files[k], fileListRead);
        k := k + 1;
      }
    }

    /** The final pass of `main`: one report per stored reference whose flag is unset. */
    method ReportUnresolved()
      modifies this`reports
      ensures reports == old(reports) + UnresolvedReports(dataRefStatus)
    {
      var k := 0;
      while k < |dataRefStatus|
        invariant 0 <= k <= |dataRefStatus|
        invariant reports == old(reports) + UnresolvedReports(dataRefStatus[..k])
      {
        var fileRef := dataRefStatus[k];
        assert dataRefStatus[..k + 1][..k] == dataRefStatus[..k];
        if !fileRef.referenceFoundFlag {
          reports := reports + [Unresolved(fileRef.baseFileLid, fileRef.linkedFileLid)];
        }
        k := k + 1;
      }
      assert dataRefStatus[..k] == dataRefStatus;
    }
  }

  /** `main` once the reference structure is loaded: nothing without a card; otherwise each
      reference application is looked up by its AID with `discover` (the discovered
      applications `getApplicationsData` lists, or the exception it raises) and dispatched, and
      then the unresolved references are reported. */
  method CheckStructure(isCardPresent: bool, reference: seq<AppView>,
                        discover: string -> Result<seq<AppView>, Failure>)
    returns (checker: Checker, failure: Option<Failure>)
    requires RunCheckable(reference, discover)
    ensures fresh(checker) && checker.Valid()
    ensures !isCardPresent ==> failure == None && checker.State() == CheckState([], [])
    ensures isCardPresent ==> (checker.State(), failure) == RunSpec(reference, discover)
  {
    checker := new Checker();
    failure := None;
    if isCardPresent {
      failure := CheckApplications(checker, reference, discover);
      if failure.None? {
        checker.ReportUnresolved();
      }
    }
  }

  /** The loop of `main` over the reference applications, until an exception ends it. */
  method CheckApplications(checker: Checker, reference: seq<AppView>,
                           discover: string -> Result<seq<AppView>, Failure>)
    returns (failure: Option<Failure>)
    requires RunCheckable(reference, discover)
    requires checker.Valid() && checker.dataRefStatus == [] && checker.reports == []
    modifies checker
    ensures checker.Valid() && (checker.State(), failure) == RunApps(reference, discover)
  {
    failure := None;
    var k := 0;
    while k < |reference| && failure.None?
      invariant 0 <= k <= |reference| && checker.Valid()
      invariant (checker.State(), failure) == RunAppsUpTo(reference, k, discover)
    {
      failure := CheckApplication(checker, reference, k, discover);
      k := k + 1;
    }
    if failure.Some? {
      RunAppsStopped(reference, k, discover);
    }
  }

  /** One turn of the loop of `main`: reference application `k`. */
  method CheckApplication(checker: Checker, reference: seq<AppView>, k: nat,
                          discover: string -> Result<seq<AppView>, Failure>)
    returns (failure: Option<Failure>)
    requires k < |reference| && RunCheckable(reference, discover) && checker.Valid()
    requires (checker.State(), None) == RunAppsUpTo(reference, k, discover)
    modifies checker
    ensures checker.Valid()
    ensures (checker.State(), failure) == RunAppsUpTo(reference, k + 1, discover)
  {
    var toCheck := reference[k];
    var found := discover(ToHexBytes(toCheck.aid));
    if found.Failure? {
      return Some(found.error);
    }
    var cardAppDataList := found.value;
    if |cardAppDataList| == 0 {
      checker.reports := checker.reports + [ApplicationNotPresent];
    } else if |cardAppDataList| > 1 {
      checker.reports := checker.reports + [TooManyApplications(|cardAppDataList|)];
    } else {
      checker.CheckCardAppData(toCheck, cardAppDataList[0]);
    }
    return None;
  }

  /** Once an exception has ended the loop, later applications change nothing. */
  lemma {:induction false} RunAppsStopped(reference: seq<AppView>, k: nat,
                                          discover: string -> Result<seq<AppView>, Failure>)
    requires k <= |reference| && RunCheckable(reference, discover)
    requires RunAppsUpTo(reference, k, discover).1.Some?
    ensures RunApps(reference, discover) == RunAppsUpTo(reference, k, discover)
    decreases |reference| - k
  {
    if k < |reference| {
      RunAppsStopped(reference, k + 1, discover);
    }
  }
}
