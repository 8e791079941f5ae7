/** The literal-text handlers of the designer's basic types: parsing a value
    written in a behaviour file, and the default value of a property whose
    default text is given. */
module TypeHandlers {
  import opened Descriptors

  /** How a Parse call ends: the setter receives a value, or the text is
      rejected with an exception that quotes it. */
  datatype Parsed<T> = Set(value: T) | Illegal(text: string)

  // ----- bool -----

  /** BoolTypeHandler.Parse: "true" or "false" in any letter case. */
  function BoolParse(parStr: string): (r: Parsed<bool>)
    ensures r.Illegal? ==> r.text == Lower(parStr)
  {
    var s := Lower(parStr);
    if s == "true" then Set(true)
    else if s == "false" then Set(false)
    else Illegal(s)
  }

  /** BoolTypeHandler.DefaultValue: the value written, or false. */
  function BoolDefaultValue(defaultValue: string): (b: bool)
    ensures b <==> Lower(defaultValue) == "true"
  {
    if defaultValue != "" then
      if Lower(defaultValue) == "true" then true
      else if Lower(defaultValue) == "false" then false
      else false
    else false
  }

  /** BoolTypeHandler.Create: the default value of no text. */
  function BoolCreate(): (b: bool)
    ensures !b
  {
    BoolDefaultValue("")
  }

  function BoolText(b: bool): string {
    if b then "true" else "false"
  }

  lemma LowerOfLowercaseText(s: string)
    requires forall i :: 0 <= i < |s| ==> !('A' <= s[i] <= 'Z')
    ensures Lower(s) == s
  {
  }

  /** The text a value is written as parses back to that value. */
  lemma BoolRoundTrip(b: bool)
    ensures BoolParse(BoolText(b)) == Set(b)
  {
    LowerOfLowercaseText(BoolText(b));
  }

  /** Parse accepts the text exactly when it reads as a value, and then
      DefaultValue gives that value; on text Parse rejects, DefaultValue
      falls back to false. */
  lemma BoolDefaultAgreesWithParse(s: string)
    ensures BoolParse(s).Set? ==> BoolDefaultValue(s) == BoolParse(s).value
    ensures BoolParse(s).Illegal? ==> !BoolDefaultValue(s)
    ensures BoolParse(s).Set? <==> exists b: bool :: Lower(s) == BoolText(b)
  {
    if s == "" {
      assert Lower(s) == "";
    }
    if BoolParse(s).Set? {
      assert Lower(s) == BoolText(BoolParse(s).value);
    }
  }

  /** Letter case does not matter. */
  lemma BoolParseIgnoresCase()
    ensures BoolParse("TRUE") == Set(true) && BoolParse("False") == Set(false)
    ensures BoolParse("yes").Illegal? && BoolParse("").Illegal? && !BoolDefaultValue("")
  {
    assert Lower("") == "";
    assert Lower("TRUE") == "true";
    assert Lower("False") == "false";
    assert Lower("yes") == "yes";
  }

  // ----- string -----

  predicate IsQuote(c: char) {
    c == '\'' || c == '"'
  }

  /** StringTypeHandler.Parse, which always succeeds: the value given to the
      setter. Text of two or more characters that opens with a quote loses its
      first and last characters; whether the last one is a matching quote is
      not checked. */
  function StringParse(parStr: string): (r: string)
    ensures |r| <= |parStr|
    ensures r == parStr || (2 <= |parStr| && r == parStr[1..|parStr| - 1])
  {
    if parStr != "" && |parStr| >= 2 && IsQuote(parStr[0]) then parStr[1..|parStr| - 1]
    else parStr
  }

  /** StringTypeHandler.DefaultValue: the text itself. */
  function StringDefaultValue(defaultValue: string): (r: string)
    ensures r == defaultValue
  {
    if defaultValue != "" then defaultValue else ""
  }

  /** A quoted literal parses to the text between its quotes. */
  lemma StringQuoteRoundTrip(s: string, q: char)
    requires IsQuote(q)
    ensures StringParse([q] + s + [q]) == s
  {
    var t := [q] + s + [q];
    assert t[1..|t| - 1] == s;
  }

  /** Text that does not open with a quote passes through unchanged. */
  lemma StringUnquotedUnchanged(s: string)
    requires s == [] || !IsQuote(s[0])
    ensures StringParse(s) == s
  {
  }

  /** The closing character is dropped even when it is not the matching
      quote, and a lone opening quote followed by one character yields the
      empty string. */
  lemma StringParseIgnoresClosingCharacter()
    ensures StringParse("\"ab'") == "ab"
    ensures StringParse("'x") == ""
  {
    var s := "\"ab'";
    assert s[1..3] == "ab";
  }

  /** Whatever character closes a literal that opens with a quote, the
      characters between the two ends are what Parse gives. */
  lemma StringParseStripsAnyCloser(s: string, q: char, c: char)
    requires IsQuote(q)
    ensures StringParse([q] + s + [c]) == s
  {
    var t := [q] + s + [c];
    assert t[1..|t| - 1] == s;
  }

  // ----- integers -----

  /** The integer types that have a handler. `LLong` and `ULLong` are the
      designer's 64-bit aliases. */
  datatype IntKind = Int | UInt | Short | UShort | SByte | Byte | Long | LLong | ULong | ULLong | Char

  const IntMin := -0x8000_0000
  const IntMax := 0x7FFF_FFFF

  /** The values of the .NET type itself. */
  function ValueLow(k: IntKind): int {
    match k
    case Int => IntMin
    case UInt | UShort | Byte | ULong | ULLong | Char => 0
    case Short => -0x8000
    case SByte => -0x80
    case Long | LLong => -0x8000_0000_0000_0000
  }

  function ValueHigh(k: IntKind): int {
    match k
    case Int => IntMax
    case UInt => 0xFFFF_FFFF
    case Short => 0x7FFF
    case UShort | Char => 0xFFFF
    case SByte => 0x7F
    case Byte => 0xFF
    case Long | LLong => 0x7FFF_FFFF_FFFF_FFFF
    case ULong | ULLong => 0xFFFF_FFFF_FFFF_FFFF
  }

  /** The bounds CreateDesignerProperty clamps the range to. The editor holds
      an `int`, so the wider types are clamped to the `int` range and the
      unsigned ones to [0, int.MaxValue]. */
  function DesignerLow(k: IntKind): int {
    match k
    case Int | Long | LLong => IntMin
    case UInt | ULong | ULLong => 0
    case Short => -0x8000
    case UShort | Byte | Char => 0
    case SByte => -0x80
  }

  function DesignerHigh(k: IntKind): int {
    match k
    case Int | Long | LLong | UInt | ULong | ULLong => IntMax
    case Short => 0x7FFF
    case UShort | Char => 0xFFFF
    case SByte => 0x7F
    case Byte => 0xFF
  }

  /** The lower end of the editor's range: raised to the bound when below it,
      otherwise kept. */
  function ClampRangeMin(k: IntKind, rangeMin: int): (rmin: int)
    ensures rmin >= DesignerLow(k) && rmin >= rangeMin
    ensures rmin == rangeMin <==> rangeMin >= DesignerLow(k)
    ensures rmin == rangeMin || rmin == DesignerLow(k)
  {
    if rangeMin < DesignerLow(k) then DesignerLow(k) else rangeMin
  }

  /** The upper end: lowered to the bound when above it, otherwise kept. */
  function ClampRangeMax(k: IntKind, rangeMax: int): (rmax: int)
    ensures rmax <= DesignerHigh(k) && rmax <= rangeMax
    ensures rmax == rangeMax <==> rangeMax <= DesignerHigh(k)
    ensures rmax == rangeMax || rmax == DesignerHigh(k)
  {
    if rangeMax > DesignerHigh(k) then DesignerHigh(k) else rangeMax
  }

  /** The editor's bounds are values of the type, and they admit zero, the
      value a fresh property of the type starts with. */
  lemma DesignerBoundsWithinType(k: IntKind)
    ensures ValueLow(k) <= DesignerLow(k) <= 0 <= DesignerHigh(k) <= ValueHigh(k)
  {
  }

  /** Clamping keeps the order of the ends, and a range that holds zero still
      holds it once clamped. */
  lemma ClampKeepsOrder(k: IntKind, rangeMin: int, rangeMax: int)
    requires rangeMin <= rangeMax
    ensures ClampRangeMin(k, rangeMin) <= ClampRangeMax(k, rangeMax) || rangeMax < DesignerLow(k) || rangeMin > DesignerHigh(k)
    ensures rangeMin <= 0 <= rangeMax ==> ClampRangeMin(k, rangeMin) <= 0 <= ClampRangeMax(k, rangeMax)
  {
    DesignerBoundsWithinType(k);
  }

  /** The ends are each clamped on one side only: a lower end above the
      type's bound is kept, so the clamped range can lie outside the type. */
  lemma ClampIsOneSided()
    ensures ClampRangeMin(Byte, 300) == 300 && ClampRangeMax(Byte, -5) == -5
  {
  }

  /** Parse of an integer handler: the setter receives the value the type's
      parser reads, or the text is rejected. The parser is a parameter:
      `tryParse(k, s)` stands for `TryParse` of type k. */
  function IntParse(k: IntKind, parStr: string, tryParse: (IntKind, string) -> Option<int>): (r: Parsed<int>)
    ensures r.Illegal? ==> r.text == parStr
  {
    match tryParse(k, parStr)
    case Some(result) => Set(result)
    case None => Illegal(parStr)
  }

  /** DefaultValue of an integer handler: the parsed value when the text is
      not empty and the type's parser accepts it, otherwise zero. */
  function IntDefaultValue(k: IntKind, defaultValue: string, tryParse: (IntKind, string) -> Option<int>): (v: int)
    ensures v == IntCreate(k) || IntParse(k, defaultValue, tryParse) == Set(v)
  {
    if defaultValue != "" then
      match tryParse(k, defaultValue)
      case Some(result) => result
      case None => 0
    else 0
  }

  /** Create of an integer handler: the value of the type that DefaultValue
      gives for no text. */
  function IntCreate(k: IntKind): (v: int)
    ensures ValueLow(k) <= v <= ValueHigh(k)
  {
    0
  }

  /** On text that Parse accepts, DefaultValue gives the parsed value; on
      every other text, the empty one included, it gives what Create gives. */
  lemma IntDefaultAgreesWithParse(k: IntKind, s: string, tryParse: (IntKind, string) -> Option<int>)
    ensures s != "" && IntParse(k, s, tryParse).Set? ==> IntDefaultValue(k, s, tryParse) == IntParse(k, s, tryParse).value
    ensures s == "" || IntParse(k, s, tryParse).Illegal? ==> IntDefaultValue(k, s, tryParse) == IntCreate(k)
    ensures IntCreate(k) == IntDefaultValue(k, "", tryParse)
  {
  }

  ghost predicate ParsesWithinType(tryParse: (IntKind, string) -> Option<int>) {
    forall k, s :: tryParse(k, s).Some? ==> ValueLow(k) <= tryParse(k, s).value <= ValueHigh(k)
  }

  /** With a parser that yields only values of the type, DefaultValue is a
      value of the type. */
  lemma IntDefaultValueWithinType(k: IntKind, defaultValue: string, tryParse: (IntKind, string) -> Option<int>)
    requires ParsesWithinType(tryParse)
    ensures ValueLow(k) <= IntDefaultValue(k, defaultValue, tryParse) <= ValueHigh(k)
  {
    DesignerBoundsWithinType(k);
  }
}
