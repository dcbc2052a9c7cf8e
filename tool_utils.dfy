/** The name tables and the padding routine shared by both tools (class `ToolUtils`). */
module ToolUtils {
  import opened Wrappers
  import opened JavaText

  const CardEfTypeBinary: int := 1
  const CardEfTypeLinear: int := 2
  const CardEfTypeCyclic: int := 4
  const CardEfTypeSimulatedCounters: int := 8
  const CardEfTypeCounters: int := 9

  /** The elementary-file structures the card API reports (`ElementaryFile.Type`). */
  datatype EfType = Linear | Binary | Cyclic | Counters | SimulatedCounters

  /** The EF type codes that have a name. */
  predicate IsNamedEfType(code: int) {
    code == CardEfTypeBinary || code == CardEfTypeLinear || code == CardEfTypeCyclic
    || code == CardEfTypeSimulatedCounters || code == CardEfTypeCounters
  }

  /** `getEfTypeName(int, boolean)`: long or four-character short name of an EF type code. */
  function EfTypeName(code: int, longMode: bool): (r: string)
  {
    if code == CardEfTypeBinary then (if longMode then "Binary" else "Bin ")
    else if code == CardEfTypeLinear then (if longMode then "Linear" else "Lin ")
    else if code == CardEfTypeCyclic then (if longMode then "Cyclic" else "Cycl")
    else if code == CardEfTypeSimulatedCounters then (if longMode then "SimulatedCounter" else "SimC")
    else if code == CardEfTypeCounters then (if longMode then "Counter" else "Cnt ")
    else "--"
  }

  /** Exactly the five codes have a name; the short names are four characters long. */
  lemma EfTypeNameNamed(code: int, longMode: bool)
    ensures EfTypeName(code, longMode) == "--" <==> !IsNamedEfType(code)
    ensures !longMode && IsNamedEfType(code) ==> |EfTypeName(code, longMode)| == 4
  {
  }

  /** `getEfTypeName(String, boolean)`: the code is read in base 16 first; `None` is the
      `NumberFormatException` of a malformed code. */
  function EfTypeNameOfString(code: string, longMode: bool): (r: Option<string>)
    ensures r.None? <==> ParseHex(code).None?
  {
    match ParseHex(code)
    case None => None
    case Some(v) => Some(EfTypeName(v, longMode))
  }

  /** A code printed in hexadecimal (as the data records store it) names the same type. */
  lemma EfTypeNameOfHex(code: nat, width: nat, longMode: bool)
    requires code < 0x8000_0000
    ensures EfTypeNameOfString(FormatHex(code, width), longMode) == Some(EfTypeName(code, longMode))
  {
    ParseFormatHex(code, width);
  }

  /** `getEfTypeIntValue`: the numeric code of an EF type; every result has a name. */
  function EfTypeIntValue(t: EfType): (r: int)
  {
    match t
    case Linear => CardEfTypeLinear
    case Binary => CardEfTypeBinary
    case Cyclic => CardEfTypeCyclic
    case Counters => CardEfTypeCounters
    case SimulatedCounters => CardEfTypeSimulatedCounters
  }

  /** Every code `getEfTypeIntValue` produces has a name. */
  lemma EfTypeIntValueNamed(t: EfType)
    ensures IsNamedEfType(EfTypeIntValue(t)) && EfTypeName(EfTypeIntValue(t), true) != "--"
  {
  }

  /** The codes `getEfTypeIntValue` produces are exactly the codes `getEfTypeName` names. */
  lemma EfTypeCodeImage(code: int)
    ensures (exists t :: EfTypeIntValue(t) == code) <==> EfTypeName(code, true) != "--"
  {
    if code == CardEfTypeLinear { assert EfTypeIntValue(Linear) == code; }
    if code == CardEfTypeBinary { assert EfTypeIntValue(Binary) == code; }
    if code == CardEfTypeCyclic { assert EfTypeIntValue(Cyclic) == code; }
    if code == CardEfTypeCounters { assert EfTypeIntValue(Counters) == code; }
    if code == CardEfTypeSimulatedCounters { assert EfTypeIntValue(SimulatedCounters) == code; }
  }

  /** Distinct EF types get distinct codes. */
  lemma EfTypeIntValueInjective(t1: EfType, t2: EfType)
    requires EfTypeIntValue(t1) == EfTypeIntValue(t2)
    ensures t1 == t2
  {
  }

  // ---------------------------------------------------------------- access conditions

  /** The access conditions whose name carries the key level. */
  predicate UsesKeyLevel(ac: int) {
    ac == 0x10 || ac == 0x14 || ac == 0x15
  }

  predicate IsNamedAc(ac: int) {
    ac == 0x1F || ac == 0x00 || ac == 0x01 || UsesKeyLevel(ac)
  }

  /** `getAcName(int, int, boolean)`: long or short name of an access condition; the key level
      is appended in decimal for session and confidential conditions. */
  function AcName(ac: int, keyLevel: int, longMode: bool): (r: string)
  {
    if ac == 0x1F then (if longMode then "Always" else "AA")
    else if ac == 0x00 then (if longMode then "Never" else "NN")
    else if ac == 0x01 then (if longMode then "PIN" else "PN")
    else if UsesKeyLevel(ac) then AcPrefix(ac, longMode) + Decimal(keyLevel)
    else "--"
  }

  /** The name of a condition that carries the key level, without the level. */
  function AcPrefix(ac: int, longMode: bool): (r: string)
    requires UsesKeyLevel(ac)
    ensures |r| >= 1
  {
    if ac == 0x10 then (if longMode then "Session" else "S")
    else if ac == 0x14 then (if longMode then "Confidential" else "C")
    else (if longMode then "Confidential&PIN" else "P")
  }

  /** Exactly the named conditions have a name other than "--", and the name of a condition that
      carries the key level ends with that level in decimal. */
  lemma AcNameShape(ac: int, keyLevel: int, longMode: bool)
    ensures AcName(ac, keyLevel, longMode) == "--" <==> !IsNamedAc(ac)
    ensures UsesKeyLevel(ac) ==>
      var r := AcName(ac, keyLevel, longMode);
      |r| > |Decimal(keyLevel)| && r[|r| - |Decimal(keyLevel)|..] == Decimal(keyLevel)
  {
    if UsesKeyLevel(ac) {
      var prefix := AcPrefix(ac, longMode);
      var level := Decimal(keyLevel);
      assert (prefix + level)[|prefix + level| - |level|..] == level;
    }
  }

  /** The key level changes the name exactly for conditions 10, 14 and 15. */
  lemma AcNameKeyLevel(ac: int, kl1: int, kl2: int, longMode: bool)
    ensures AcName(ac, kl1, longMode) == AcName(ac, kl2, longMode)
        <==> (kl1 == kl2 || !UsesKeyLevel(ac))
  {
    if UsesKeyLevel(ac) && AcName(ac, kl1, longMode) == AcName(ac, kl2, longMode) {
      var p := AcName(ac, kl1, longMode)[..|AcName(ac, kl1, longMode)| - |Decimal(kl1)|];
      var q := AcName(ac, kl2, longMode)[..|AcName(ac, kl2, longMode)| - |Decimal(kl2)|];
      assert AcName(ac, kl1, longMode) == p + Decimal(kl1);
      assert AcName(ac, kl2, longMode) == q + Decimal(kl2);
      assert p == q;
      assert Decimal(kl1) == Decimal(kl2);
      DecimalInjective(kl1, kl2);
    }
  }

  /** `getAcName(String, String, boolean)`: both arguments are read in base 16 before the table
      is consulted, so a malformed key level fails even where the key level is not shown. */
  function AcNameOfStrings(ac: string, keyLevel: string, longMode: bool): (r: Option<string>)
    ensures r.None? <==> (ParseHex(ac).None? || ParseHex(keyLevel).None?)
  {
    match (ParseHex(ac), ParseHex(keyLevel))
    case (Some(a), Some(k)) => Some(AcName(a, k, longMode))
    case _ => None
  }

  /** Names read back from the hexadecimal strings of two bytes are the names of the bytes. */
  lemma AcNameOfHexBytes(ac: JByte, keyLevel: JByte, longMode: bool)
    ensures AcNameOfStrings(ToHexByte(ac), ToHexByte(keyLevel), longMode)
        == Some(AcName(UByte(ac), UByte(keyLevel), longMode))
  {
    ToHexByteValue(ac);
    ToHexByteValue(keyLevel);
  }

  // ---------------------------------------------------------------- issuers

  /** The software-issuer codes that have a name. */
  predicate IsKnownIssuer(b: int) {
    0x00 <= b <= 0x2F && b != 0x03
  }

  /** `getIssuerName(byte)`: the name of the software issuer; Java bytes are signed, so a byte
      above 0x7F is negative and unnamed. */
  function IssuerName(b: JByte): (r: string)
  {
    match b
    case 0x00 => "Paragon Id"
    case 0x01 => "Intec"
    case 0x02 => "Calypso"
    case 0x04 => "Thales"
    case 0x05 => "Idemia"
    case 0x0A => "Idemia"
    case 0x06 => "Axalto"
    case 0x07 => "Bull"
    case 0x08 => "Spirtech"
    case 0x09 => "BMS"
    case 0x0B => "Gemplus"
    case 0x0C => "Magnadata"
    case 0x0D => "Calmell"
    case 0x0E => "Mecstar"
    case 0x0F => "ACG Identification"
    case 0x10 => "STMicroelectronics"
    case 0x11 => "CNA"
    case 0x12 => "G&D"
    case 0x13 => "OTI"
    case 0x14 => "Gemalto"
    case 0x15 => "Watchdata"
    case 0x16 => "Alios"
    case 0x17 => "S-P-S"
    case 0x18 => "ISRA"
    case 0x19 => "Trust Electronics"
    case 0x1A => "Trusted Labs"
    case 0x1B => "Neowave"
    case 0x1C => "Digital People"
    case 0x1D => "ABNote Europe"
    case 0x1E => "Twinlinx"
    case 0x1F => "Inteligensa"
    case 0x20 => "CNA"
    case 0x21 => "Innovatron"
    case 0x22 => "Austria Card"
    case 0x23 => "Carta+"
    case 0x24 => "Impimerie Nationale"
    case 0x25 => "HID Global"
    case 0x29 => "HID Global"
    case 0x26 => "Card Project"
    case 0x27 => "PosteMobile"
    case 0x28 => "HB Technologies"
    case 0x2A => "ANY Security Printing"
    case 0x2B => "SELP"
    case 0x2C => "Future Card"
    case 0x2D => "iQuantics"
    case 0x2E => "Calypso"
    case 0x2F => "Aruba PEC"
    case _ => "--"
  }

  /** Exactly the known codes have a name other than "--". */
  lemma IssuerNameKnown(b: JByte)
    ensures IssuerName(b) == "--" <==> !IsKnownIssuer(b)
  {
  }

  /** The smallest code that carries a given issuer name (-1 for a name not in the table). */
  function IssuerCodeOf(name: string): int
  {
    if |name| == 3 then
      if name == "BMS" then 0x09
      else if name == "CNA" then 0x11
      else if name == "G&D" then 0x12
      else if name == "OTI" then 0x13
      else -1
    else if |name| == 4 then
      if name == "Bull" then 0x07
      else if name == "ISRA" then 0x18
      else if name == "SELP" then 0x2B
      else -1
    else if |name| == 5 then
      if name == "Intec" then 0x01
      else if name == "Alios" then 0x16
      else if name == "S-P-S" then 0x17
      else -1
    else if |name| == 6 then
      if name == "Thales" then 0x04
      else if name == "Idemia" then 0x05
      else if name == "Axalto" then 0x06
      else if name == "Carta+" then 0x23
      else -1
    else if |name| == 7 then
      if name == "Calypso" then 0x02
      else if name == "Gemplus" then 0x0B
      else if name == "Calmell" then 0x0D
      else if name == "Mecstar" then 0x0E
      else if name == "Gemalto" then 0x14
      else if name == "Neowave" then 0x1B
      else -1
    else if |name| == 8 then
      if name == "Spirtech" then 0x08
      else if name == "Twinlinx" then 0x1E
      else -1
    else if |name| == 9 then
      if name == "Magnadata" then 0x0C
      else if name == "Watchdata" then 0x15
      else if name == "iQuantics" then 0x2D
      else if name == "Aruba PEC" then 0x2F
      else -1
    else if |name| == 10 then
      if name == "Paragon Id" then 0x00
      else if name == "Innovatron" then 0x21
      else if name == "HID Global" then 0x25
      else -1
    else if |name| == 11 then
      if name == "Inteligensa" then 0x1F
      else if name == "PosteMobile" then 0x27
      else if name == "Future Card" then 0x2C
      else -1
    else if |name| == 12 then
      if name == "Trusted Labs" then 0x1A
      else if name == "Austria Card" then 0x22
      else if name == "Card Project" then 0x26
      else -1
    else if |name| == 13 then
      if name == "ABNote Europe" then 0x1D
      else -1
    else if |name| == 14 then
      if name == "Digital People" then 0x1C
      else -1
    else if |name| == 15 then
      if name == "HB Technologies" then 0x28
      else -1
    else if |name| == 17 then
      if name == "Trust Electronics" then 0x19
      else -1
    else if |name| == 18 then
      if name == "ACG Identification" then 0x0F
      else if name == "STMicroelectronics" then 0x10
      else -1
    else if |name| == 19 then
      if name == "Impimerie Nationale" then 0x24
      else -1
    else if |name| == 21 then
      if name == "ANY Security Printing" then 0x2A
      else -1
    else -1
  }

  /** The code whose name a code repeats: every code is its own, except the four codes that
      repeat the name of a smaller one. */
  function IssuerCanonical(b: JByte): JByte {
    if b == 0x0A then 0x05
    else if b == 0x20 then 0x11
    else if b == 0x2E then 0x02
    else if b == 0x29 then 0x25
    else b
  }

  // The round trip through `IssuerCodeOf`, three codes at a time: each block already takes up
  // to half of the solver's resource budget (the name table is compared string by string), so
  // a single lemma over all the codes does not verify within it. `IssuerNameRoundTrip` joins
  // the blocks.
  lemma IssuerNameRoundTrip0(b: JByte)
    requires 0x00 <= b < 0x03 && IsKnownIssuer(b)
    ensures IssuerCodeOf(IssuerName(b)) == IssuerCanonical(b)
  {
  }

  lemma IssuerNameRoundTrip1(b: JByte)
    requires 0x03 <= b < 0x06 && IsKnownIssuer(b)
    ensures IssuerCodeOf(IssuerName(b)) == IssuerCanonical(b)
  {
  }

  lemma IssuerNameRoundTrip2(b: JByte)
    requires 0x06 <= b < 0x09 && IsKnownIssuer(b)
    ensures IssuerCodeOf(IssuerName(b)) == IssuerCanonical(b)
  {
  }

  lemma IssuerNameRoundTrip3(b: JByte)
    requires 0x09 <= b < 0x0C && IsKnownIssuer(b)
    ensures IssuerCodeOf(IssuerName(b)) == IssuerCanonical(b)
  {
  }

  lemma IssuerNameRoundTrip4(b: JByte)
    requires 0x0C <= b < 0x0F && IsKnownIssuer(b)
    ensures IssuerCodeOf(IssuerName(b)) == IssuerCanonical(b)
  {
  }

  lemma IssuerNameRoundTrip5(b: JByte)
    requires 0x0F <= b < 0x12 && IsKnownIssuer(b)
    ensures IssuerCodeOf(IssuerName(b)) == IssuerCanonical(b)
  {
  }

  lemma IssuerNameRoundTrip6(b: JByte)
    requires 0x12 <= b < 0x15 && IsKnownIssuer(b)
    ensures IssuerCodeOf(IssuerName(b)) == IssuerCanonical(b)
  {
  }

  lemma IssuerNameRoundTrip7(b: JByte)
    requires 0x15 <= b < 0x18 && IsKnownIssuer(b)
    ensures IssuerCodeOf(IssuerName(b)) == IssuerCanonical(b)
  {
  }

  lemma IssuerNameRoundTrip8(b: JByte)
    requires 0x18 <= b < 0x1B && IsKnownIssuer(b)
    ensures IssuerCodeOf(IssuerName(b)) == IssuerCanonical(b)
  {
  }

  lemma IssuerNameRoundTrip9(b: JByte)
    requires 0x1B <= b < 0x1E && IsKnownIssuer(b)
    ensures IssuerCodeOf(IssuerName(b)) == IssuerCanonical(b)
  {
  }

  lemma IssuerNameRoundTrip10(b: JByte)
    requires 0x1E <= b < 0x21 && IsKnownIssuer(b)
    ensures IssuerCodeOf(IssuerName(b)) == IssuerCanonical(b)
  {
  }

  lemma IssuerNameRoundTrip11(b: JByte)
    requires 0x21 <= b < 0x24 && IsKnownIssuer(b)
    ensures IssuerCodeOf(IssuerName(b)) == IssuerCanonical(b)
  {
  }

  lemma IssuerNameRoundTrip12(b: JByte)
    requires 0x24 <= b < 0x27 && IsKnownIssuer(b)
    ensures IssuerCodeOf(IssuerName(b)) == IssuerCanonical(b)
  {
  }

  lemma IssuerNameRoundTrip13(b: JByte)
    requires 0x27 <= b < 0x2A && IsKnownIssuer(b)
    ensures IssuerCodeOf(IssuerName(b)) == IssuerCanonical(b)
  {
  }

  lemma IssuerNameRoundTrip14(b: JByte)
    requires 0x2A <= b < 0x2D && IsKnownIssuer(b)
    ensures IssuerCodeOf(IssuerName(b)) == IssuerCanonical(b)
  {
  }

  lemma IssuerNameRoundTrip15(b: JByte)
    requires 0x2D <= b < 0x30 && IsKnownIssuer(b)
    ensures IssuerCodeOf(IssuerName(b)) == IssuerCanonical(b)
  {
  }

  lemma IssuerNameRoundTrip(b: JByte)
    requires IsKnownIssuer(b)
    ensures IssuerCodeOf(IssuerName(b)) == IssuerCanonical(b)
  {
    if b < 0x03 { IssuerNameRoundTrip0(b); }
    else if b < 0x06 { IssuerNameRoundTrip1(b); }
    else if b < 0x09 { IssuerNameRoundTrip2(b); }
    else if b < 0x0C { IssuerNameRoundTrip3(b); }
    else if b < 0x0F { IssuerNameRoundTrip4(b); }
    else if b < 0x12 { IssuerNameRoundTrip5(b); }
    else if b < 0x15 { IssuerNameRoundTrip6(b); }
    else if b < 0x18 { IssuerNameRoundTrip7(b); }
    else if b < 0x1B { IssuerNameRoundTrip8(b); }
    else if b < 0x1E { IssuerNameRoundTrip9(b); }
    else if b < 0x21 { IssuerNameRoundTrip10(b); }
    else if b < 0x24 { IssuerNameRoundTrip11(b); }
    else if b < 0x27 { IssuerNameRoundTrip12(b); }
    else if b < 0x2A { IssuerNameRoundTrip13(b); }
    else if b < 0x2D { IssuerNameRoundTrip14(b); }
    else { IssuerNameRoundTrip15(b); }
  }

  /** A code has the same name as the code whose name it repeats. */
  lemma IssuerNameOfCanonical(b: JByte)
    ensures IssuerName(IssuerCanonical(b)) == IssuerName(b)
  {
  }

  /** Two known codes share a name exactly when they repeat the same code's name. */
  lemma IssuerNameShared(a: JByte, b: JByte)
    requires IsKnownIssuer(a) && IsKnownIssuer(b)
    ensures IssuerName(a) == IssuerName(b) <==> IssuerCanonical(a) == IssuerCanonical(b)
  {
    IssuerNameRoundTrip(a);
    IssuerNameRoundTrip(b);
    IssuerNameOfCanonical(a);
    IssuerNameOfCanonical(b);
  }

  /** Exactly four pairs of codes share an issuer name: 05/0A, 11/20, 02/2E and 25/29. */
  lemma IssuerNamePairs(a: JByte, b: JByte)
    requires a < b && IsKnownIssuer(a) && IsKnownIssuer(b)
    ensures IssuerName(a) == IssuerName(b)
        <==> (a, b) in {(0x05, 0x0A), (0x11, 0x20), (0x02, 0x2E), (0x25, 0x29)}
  {
    IssuerNameShared(a, b);
  }

  // ---------------------------------------------------------------- padding

  /** `padLeft(input, length, padChar)`: `input` preceded by as many `padChar` as it takes to
      reach `length` characters; unchanged when it is already that long. */
  function PadLeftSpec(input: string, length: int, padChar: char): (r: string)
    ensures |r| == if length <= |input| then |input| else length
  {
    if length <= |input| then input else Repeat(padChar, length - |input|) + input
  }

  /** The padded string ends with the input and is made of `padChar` before it. */
  lemma PadLeftShape(input: string, length: int, padChar: char)
    ensures var r := PadLeftSpec(input, length, padChar);
      && r[|r| - |input|..] == input
      && forall i :: 0 <= i < |r| - |input| ==> r[i] == padChar
  {
    var r := PadLeftSpec(input, length, padChar);
    if length > |input| {
      var pad := Repeat(padChar, length - |input|);
      RepeatAt(padChar, length - |input|);
      assert r == pad + input;
      assert r[|r| - |input|..] == input;
      assert forall i :: 0 <= i < |pad| ==> r[i] == pad[i];
    } else {
      assert r[|r| - |input|..] == r[0..] == input;
    }
  }

  function Repeat(c: char, n: nat): (r: string)
    ensures |r| == n
  {
    if n == 0 then [] else Repeat(c, n - 1) + [c]
  }

  lemma {:induction false} RepeatAt(c: char, n: nat)
    ensures forall i :: 0 <= i < n ==> Repeat(c, n)[i] == c
  {
    if n > 0 {
      RepeatAt(c, n - 1);
      assert forall i :: 0 <= i < n - 1 ==> Repeat(c, n)[i] == Repeat(c, n - 1)[i];
    }
  }

  lemma PadLeftIdempotent(input: string, length: int, padChar: char)
    ensures PadLeftSpec(PadLeftSpec(input, length, padChar), length, padChar)
        == PadLeftSpec(input, length, padChar)
  {
  }

  /** The source's loop: pad characters are appended one by one, then the input. */
  method PadLeft(input: string, length: JInt, padChar: char) returns (r: string)
    ensures r == PadLeftSpec(input, length, padChar)
  {
    if length <= |input| {
      return input;
    }
    var sb: string := [];
    var i := |input|;
    while i < length
      invariant |input| <= i <= length
      invariant sb == Repeat(padChar, i - |input|)
    {
      sb := sb + [padChar];
      i := i + 1;
    }
    sb := sb + input;
    r := sb;
  }
}
