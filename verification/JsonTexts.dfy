/** JSON texts as the built-in rules are meant to let them through: with white space in moderation, numbers of at most
    16 digits before and after the point, and no DEL or escaped slash in strings. */
module JsonTexts {
  import opened Gbnf

  // ---------------------------------------------------------------- characters and white space

  predicate IsDigit(c: char) { '0' <= c <= '9' }

  predicate IsHex(c: char) { '0' <= c <= '9' || 'a' <= c <= 'f' || 'A' <= c <= 'F' }

  predicate AllDigits(w: string) { forall i :: 0 <= i < |w| ==> IsDigit(w[i]) }

  predicate AllHex(w: string) { forall i :: 0 <= i < |w| ==> IsHex(w[i]) }

  /** Nothing, a space, or a new line and up to twenty blanks. */
  predicate IsBlank(w: string) {
    || w == "" || w == " "
    || (w[0] == '\n' && |w| <= 21 && forall i :: 1 <= i < |w| ==> w[i] == ' ' || w[i] == '\t')
  }

  ghost function Blank(): Lang { iset w | IsBlank(w) }

  // ---------------------------------------------------------------- numbers

  /** No leading zero. */
  predicate IsIntegral(w: string) { 1 <= |w| <= 16 && AllDigits(w) && (w[0] == '0' ==> |w| == 1) }

  predicate IsInteger(w: string) { IsIntegral(w) || (w != "" && w[0] == '-' && IsIntegral(w[1..])) }

  predicate IsFraction(w: string) { 2 <= |w| <= 17 && w[0] == '.' && AllDigits(w[1..]) }

  predicate IsExponent(w: string) {
    && |w| >= 2 && (w[0] == 'e' || w[0] == 'E')
    && (IsIntegral(w[1..]) || ((w[1] == '+' || w[1] == '-') && IsIntegral(w[2..])))
  }

  ghost function Integers(): Lang { iset w | IsInteger(w) }

  ghost function Fractions(): Lang { iset w | IsFraction(w) }

  ghost function Exponents(): Lang { iset w | IsExponent(w) }

  /** An integer, then a fraction or none, then an exponent or none. */
  ghost function Numbers(): Lang {
    Cat(Integers(), Cat(Eps() + Fractions(), Eps() + Exponents()))
  }

  // ---------------------------------------------------------------- strings

  predicate PlainChar(c: char) { ' ' <= c && c != '"' && c != '\\' && c != '\U{7F}' }

  predicate ShortEscape(w: string) { |w| == 1 && w[0] in "\"\\bfnrt" }

  predicate HexEscape(w: string) { |w| == 5 && w[0] == 'u' && AllHex(w[1..]) }

  /** A character of a JSON string, or the escape of one (section 7 of RFC 8259). */
  predicate JsonChar(w: string) {
    || (|w| == 1 && PlainChar(w[0]))
    || (w != "" && w[0] == '\\' && (ShortEscape(w[1..]) || HexEscape(w[1..])))
  }

  /** What stands between the quotes of a JSON string. */
  predicate InString(w: string)
    decreases |w|
  {
    || w == ""
    || (PlainChar(w[0]) && InString(w[1..]))
    || (|w| >= 2 && w[0] == '\\' && ShortEscape(w[1..2]) && InString(w[2..]))
    || (|w| >= 6 && w[0] == '\\' && HexEscape(w[1..6]) && InString(w[6..]))
  }

  predicate IsString(w: string) {
    |w| >= 2 && w[0] == '"' && w[|w| - 1] == '"' && InString(w[1..|w| - 1])
  }

  // ---------------------------------------------------------------- formats

  predicate IsUuid(w: string) {
    && |w| == 36 && AllHex(w[..8]) && w[8] == '-' && AllHex(w[9..13]) && w[13] == '-' && AllHex(w[14..18])
    && w[18] == '-' && AllHex(w[19..23]) && w[23] == '-' && AllHex(w[24..])
  }

  function DigitValue(c: char): int { c as int - '0' as int }

  /** Two digits whose number lies between `lo` and `hi`. */
  predicate Between(w: string, lo: int, hi: int) {
    |w| == 2 && AllDigits(w) && lo <= 10 * DigitValue(w[0]) + DigitValue(w[1]) <= hi
  }

  /** Year, month and day. */
  predicate IsDate(w: string) {
    && |w| == 10 && AllDigits(w[..4]) && w[4] == '-' && Between(w[5..7], 1, 12) && w[7] == '-'
    && Between(w[8..], 1, 31)
  }

  /** Hours and minutes. */
  predicate IsClock(w: string) {
    |w| == 5 && Between(w[..2], 0, 23) && w[2] == ':' && Between(w[3..], 0, 59)
  }

  predicate IsZone(w: string) { w == "Z" || (|w| == 6 && (w[0] == '+' || w[0] == '-') && IsClock(w[1..])) }

  /** Hours, minutes, seconds, perhaps three digits of a fraction, and the time zone (section 5.6 of RFC 3339). */
  predicate IsTime(w: string) {
    && |w| >= 8 && IsClock(w[..5]) && w[5] == ':' && Between(w[6..8], 0, 59)
    && (IsZone(w[8..]) || (|w| >= 12 && w[8] == '.' && AllDigits(w[9..12]) && IsZone(w[12..])))
  }

  predicate IsDateTime(w: string) { |w| > 10 && IsDate(w[..10]) && w[10] == 'T' && IsTime(w[11..]) }

  // ---------------------------------------------------------------- values

  datatype Json =
    | JNull
    | JBoolean(value: bool)
    | JNumber(number: string)
    | JString(text: string)              // with its quotes
    | JArray(items: seq<Json>)
    | JObject(members: seq<Member>)

  datatype Member = Member(key: string, value: Json)

  /** One after the other, with a comma and white space between neighbours. */
  ghost function Listed(ls: seq<Lang>): Lang {
    if ls == [] then Eps()
    else if |ls| == 1 then ls[0]
    else Cat(ls[0], Cat(iset{","}, Cat(Blank(), Listed(ls[1..]))))
  }

  /** A word, and white space after it. */
  ghost function Spaced(w: string): Lang { Cat(iset{w}, Blank()) }

  ghost function Bracketed(open: string, inner: Lang, close: string): Lang {
    Cat(iset{open}, Cat(Blank(), Cat(inner, Cat(iset{close}, Blank()))))
  }

  /** The texts of a value. */
  ghost function TextsOf(j: Json): Lang
    decreases j
  {
    match j
    case JNull => Spaced("null")
    case JBoolean(b) => Spaced(if b then "true" else "false")
    case JNumber(n) => if n in Numbers() then Spaced(n) else iset{}
    case JString(s) => if IsString(s) then Spaced(s) else iset{}
    case JArray(items) => Bracketed("[", Listed(AllTexts(items)), "]")
    case JObject(ms) => Bracketed("{", Listed(AllMemberTexts(ms)), "}")
  }

  ghost function AllTexts(js: seq<Json>): seq<Lang>
    decreases js
  {
    seq(|js|, i requires 0 <= i < |js| => TextsOf(js[i]))
  }

  ghost function AllMemberTexts(ms: seq<Member>): seq<Lang>
    decreases ms
  {
    seq(|ms|, i requires 0 <= i < |ms| => MemberTexts(ms[i]))
  }

  ghost function MemberTexts(m: Member): Lang
    decreases m
  {
    if IsString(m.key) then Cat(Spaced(m.key), Cat(iset{":"}, Cat(Blank(), TextsOf(m.value)))) else iset{}
  }

  ghost predicate IsText(w: string) { exists j :: w in TextsOf(j) }

  ghost predicate IsArrayText(w: string) { exists j: Json :: j.JArray? && w in TextsOf(j) }

  ghost predicate IsObjectText(w: string) { exists j: Json :: j.JObject? && w in TextsOf(j) }

  // ---------------------------------------------------------------- by the name of the rule

  ghost function Quoted(l: Lang): Lang { Cat(iset{"\""}, Cat(l, Cat(iset{"\""}, Blank()))) }

  ghost function BooleanTexts(): Lang { Cat(iset{"true", "false"}, Blank()) }

  ghost function NullTexts(): Lang { Cat(iset{"null"}, Blank()) }

  ghost function Integrals(): Lang { iset w | IsIntegral(w) }

  ghost function Decimals(): Lang { iset w: string | 1 <= |w| <= 16 && AllDigits(w) }

  ghost function IntegerTexts(): Lang { Cat(Integers(), Blank()) }

  ghost function NumberTexts(): Lang { Cat(Numbers(), Blank()) }

  ghost function Chars(): Lang { iset w | JsonChar(w) }

  ghost function Strings(): Lang { iset w | IsString(w) }

  ghost function StringTexts(): Lang { Cat(Strings(), Blank()) }

  ghost function ValueTexts(): Lang { iset w | IsText(w) }

  ghost function ArrayTexts(): Lang { iset w | IsArrayText(w) }

  ghost function ObjectTexts(): Lang { iset w | IsObjectText(w) }

  ghost function Uuids(): Lang { iset w | IsUuid(w) }

  ghost function DateTexts(): Lang { iset w | IsDate(w) }

  ghost function TimeTexts(): Lang { iset w | IsTime(w) }

  ghost function DateTimeTexts(): Lang { iset w | IsDateTime(w) }

  /** What a built-in rule is to denote. */
  ghost function TextsOfRule(p: string): Lang {
    match p
    case "boolean" => BooleanTexts()
    case "null" => NullTexts()
    case "integral-part" => Integrals()
    case "decimal-part" => Decimals()
    case "integer" => IntegerTexts()
    case "number" => NumberTexts()
    case "char" => Chars()
    case "string" => StringTexts()
    case "value" => ValueTexts()
    case "array" => ArrayTexts()
    case "object" => ObjectTexts()
    case "uuid" => Quoted(Uuids())
    case "date" => DateTexts()
    case "time" => TimeTexts()
    case "date-time" => DateTimeTexts()
    case "date-string" => Quoted(DateTexts())
    case "time-string" => Quoted(TimeTexts())
    case "date-time-string" => Quoted(DateTimeTexts())
    case _ => iset{}
  }
}
