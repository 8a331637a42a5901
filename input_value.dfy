/** Text conversions of a value supplied from outside the program, such as a
    configuration parameter (InputValue.java). Every conversion starts from
    `AsText`, which treats `null` and the empty string alike as "no text", and
    reports a value that does not convert as `None` instead of raising. */
module InputValues {
  import opened Results

  /** What `get()` returns; `None` stands for `null`. */
  type InputValue = Option<string>

  /** Bounds of Java's `int` and `long`. */
  const IntMin: int := -0x8000_0000
  const IntMax: int := 0x7fff_ffff
  const LongMin: int := -0x8000_0000_0000_0000
  const LongMax: int := 0x7fff_ffff_ffff_ffff

  /** `InputValue.of(s)`: an input value whose `get()` is `s`. */
  function Of(s: string): (v: InputValue)
    ensures v.Some? && v.value == s
  {
    Some(s)
  }

  /** `InputValue.EMPTY`: an input value whose `get()` is `null`. */
  const Empty: InputValue := None

  /** `asText()`: no text for `null` and for `""`, the value itself otherwise. */
  function AsText(v: InputValue): (r: Option<string>)
    ensures r.None? <==> v.None? || v.value == ""
    ensures r.Some? ==> v == Some(r.value) && r.value != ""
  {
    if v.None? || v.value == "" then None else v
  }

  /** `map(mapper)`: the mapper is applied to the text, and only when there is text. */
  function Map<T>(v: InputValue, mapper: string -> T): (r: Option<T>)
    ensures r.Some? <==> AsText(v).Some?
    ensures r.Some? ==> r.value == mapper(AsText(v).value)
  {
    match AsText(v)
    case None => None
    case Some(s) => Some(mapper(s))
  }

  // ---------------------------------------------------------------------------
  // Decimal numbers (Integer.parseInt, Long.parseLong), restricted to ASCII digits

  predicate IsDigit(c: char) {
    '0' <= c <= '9'
  }

  predicate AllDigits(s: string) {
    forall i :: 0 <= i < |s| ==> IsDigit(s[i])
  }

  /** The number a run of decimal digits denotes (leading zeros allowed). */
  function DigitsValue(s: string): nat
    requires AllDigits(s)
    decreases |s|
  {
    if s == [] then 0 else DigitsValue(s[..|s| - 1]) * 10 + (s[|s| - 1] as int - '0' as int)
  }

  predicate IsSign(c: char) {
    c == '-' || c == '+'
  }

  /** The texts `parseInt` and `parseLong` accept whatever their range: an
      optional sign, then one or more digits and nothing else. */
  predicate WellFormedDecimal(s: string) {
    |s| > 0 && (if IsSign(s[0]) then |s| > 1 && AllDigits(s[1..]) else AllDigits(s))
  }

  /** The number a well-formed decimal text denotes; leading zeros and a
      leading `+` are allowed, and "-0" is zero. */
  function DecimalValue(s: string): int
    requires WellFormedDecimal(s)
  {
    if s[0] == '-' then -(DigitsValue(s[1..]) as int) else if s[0] == '+' then DigitsValue(s[1..]) else DigitsValue(s)
  }

  /** `parseInt`/`parseLong` with the type's bounds: an optional `+` or `-`,
      at least one digit and nothing else, and a value within [min, max];
      everything else is a NumberFormatException, here `None`. */
  function ParseDecimal(s: string, min: int, max: int): (r: Option<int>)
    ensures r.Some? ==> min <= r.value <= max
    ensures r.Some? ==> |s| > 0 && (IsDigit(s[0]) || s[0] == '-' || s[0] == '+') && AllDigits(s[1..])
    ensures r.Some? ==> |s| > 1 || IsDigit(s[0])
    ensures r.Some? <==> WellFormedDecimal(s) && min <= DecimalValue(s) <= max
    ensures r.Some? ==> r.value == DecimalValue(s)
  {
    if s == [] then None
    else
      var digits := if s[0] == '-' || s[0] == '+' then s[1..] else s;
      if digits == [] || !AllDigits(digits) then None
      else
        var n: int := if s[0] == '-' then -(DigitsValue(digits) as int) else DigitsValue(digits);
        if min <= n <= max then Some(n) else None
  }

  function DigitChar(d: nat): (c: char)
    requires d < 10
    ensures IsDigit(c) && c as int - '0' as int == d
  {
    ('0' as int + d) as char
  }

  /** The shortest decimal text of a natural number. */
  function NaturalText(n: nat): (r: string)
    ensures |r| > 0 && AllDigits(r)
    decreases n
  {
    if n < 10 then [DigitChar(n)] else NaturalText(n / 10) + [DigitChar(n % 10)]
  }

  /** The decimal text of an integer, as `Integer.toString` writes it. */
  function DecimalText(n: int): string {
    if n < 0 then "-" + NaturalText(-n) else NaturalText(n)
  }

  lemma {:induction false} NaturalTextValue(n: nat)
    ensures DigitsValue(NaturalText(n)) == n
    decreases n
  {
    if n >= 10 {
      NaturalTextValue(n / 10);
      var t := NaturalText(n);
      assert t[..|t| - 1] == NaturalText(n / 10);
    }
  }

  /** Parsing the decimal text of any number within the bounds gives the number back. */
  lemma ParseDecimalText(n: int, min: int, max: int)
    requires min <= n <= max
    ensures ParseDecimal(DecimalText(n), min, max) == Some(n)
  {
    var t := NaturalText(if n < 0 then -n else n);
    NaturalTextValue(if n < 0 then -n else n);
    if n < 0 {
      assert DecimalText(n)[1..] == t;
    }
  }

  /** `asInteger()`: the text parsed as an `int`, no value for `null`, `""` or
      text that `Integer.parseInt` rejects. */
  function AsInteger(v: InputValue): (r: Option<int>)
    ensures r.Some? ==> IntMin <= r.value <= IntMax
    ensures r.Some? ==> AsText(v).Some? && AllDigits(v.value[1..])
    ensures AsText(v).None? ==> r.None?
    ensures r.Some? <==> v.Some? && WellFormedDecimal(v.value) && IntMin <= DecimalValue(v.value) <= IntMax
    ensures r.Some? ==> r.value == DecimalValue(v.value)
  {
    match Map(v, s => ParseDecimal(s, IntMin, IntMax))
    case None => None
    case Some(parsed) => parsed
  }

  /** `asLong()`: the same conversion over the range of a `long`. */
  function AsLong(v: InputValue): (r: Option<int>)
    ensures r.Some? ==> LongMin <= r.value <= LongMax
    ensures r.Some? ==> AsText(v).Some? && AllDigits(v.value[1..])
    ensures AsText(v).None? ==> r.None?
    ensures r.Some? <==> v.Some? && WellFormedDecimal(v.value) && LongMin <= DecimalValue(v.value) <= LongMax
    ensures r.Some? ==> r.value == DecimalValue(v.value)
  {
    match Map(v, s => ParseDecimal(s, LongMin, LongMax))
    case None => None
    case Some(parsed) => parsed
  }

  /** Every `int` and every `long` survives the round trip through its decimal text. */
  lemma AsIntegerOfDecimalText(n: int)
    requires IntMin <= n <= IntMax
    ensures AsInteger(Of(DecimalText(n))) == Some(n)
    ensures AsLong(Of(DecimalText(n))) == Some(n)
  {
    ParseDecimalText(n, IntMin, IntMax);
    ParseDecimalText(n, LongMin, LongMax);
  }

  lemma AsLongOfDecimalText(n: int)
    requires LongMin <= n <= LongMax
    ensures AsLong(Of(DecimalText(n))) == Some(n)
  {
    ParseDecimalText(n, LongMin, LongMax);
  }

  /** The cases `parseInt` is known for: a plus sign and leading zeros are
      accepted, "-0" is zero, and a letter, a lone sign or an empty text give
      no value. */
  lemma AsIntegerExamples()
    ensures AsInteger(Of("1")) == Some(1)
    ensures AsInteger(Of("+7")) == Some(7) && AsInteger(Of("007")) == Some(7)
    ensures AsInteger(Of("-0")) == Some(0) && AsInteger(Of("-12")) == Some(-12)
    ensures AsInteger(Of("a")).None? && AsInteger(Of("1a")).None? && AsInteger(Of("-")).None?
    ensures AsInteger(Of("")).None? && AsInteger(Empty).None?
    ensures AsLong(Of("a")).None? && AsLong(Of("+7")) == Some(7)
  {
    assert DigitsValue("1") == 1;
    assert DigitsValue("7") == 7;
    assert "+7"[1..] == "7";
    assert DigitsValue("00") == 0;
    assert DigitsValue("007") == 7;
    assert "-0"[1..] == "0";
    assert "-12"[1..] == "12";
    assert DigitsValue("12") == 12;
    assert !IsDigit("a"[0]) && !IsSign("a"[0]);
    assert !IsDigit("1a"[1]) && !IsSign("1a"[0]);
    assert "-"[0] == '-';
  }

  /** A value one past the `int` range parses as a `long` but not as an `int`. */
  lemma IntegerOverflowIsEmpty()
    ensures AsInteger(Of(DecimalText(IntMax + 1))).None?
    ensures AsLong(Of(DecimalText(IntMax + 1))) == Some(IntMax + 1)
  {
    ParseDecimalText(IntMax + 1, LongMin, LongMax);
    var t := DecimalText(IntMax + 1);
    NaturalTextValue(IntMax + 1);
    assert t[0] != '-' && t[0] != '+';
  }

  // ---------------------------------------------------------------------------
  // Booleans (Boolean.parseBoolean)

  function LowerAscii(c: char): char {
    if 'A' <= c <= 'Z' then (c as int + 32) as char else c
  }

  function UpperAscii(c: char): char {
    if 'a' <= c <= 'z' then (c as int - 32) as char else c
  }

  predicate EqualsIgnoreCase(a: string, b: string) {
    |a| == |b| && forall i :: 0 <= i < |a| ==> LowerAscii(a[i]) == LowerAscii(b[i])
  }

  /** `asBoolean()`: present whenever there is text, and true exactly when the
      text is "true" in any mix of cases; any other text is false, never an error. */
  function AsBoolean(v: InputValue): (r: Option<bool>)
    ensures r.Some? <==> AsText(v).Some?
    ensures r.Some? ==> (r.value <==> EqualsIgnoreCase(v.value, "true"))
  {
    Map(v, s => EqualsIgnoreCase(s, "true"))
  }

  lemma AsBooleanExamples()
    ensures AsBoolean(Of("true")) == Some(true)
    ensures AsBoolean(Of("TrUe")) == Some(true)
    ensures AsBoolean(Of("false")) == Some(false)
    ensures AsBoolean(Of("yes")) == Some(false)
    ensures AsBoolean(Empty).None? && AsBoolean(Of("")).None?
  {
    assert !EqualsIgnoreCase("false", "true");
  }

  // ---------------------------------------------------------------------------
  // Enum constants (Enum.valueOf after normalisation)

  predicate IsSeparator(c: char) {
    c == '-' || c == ' ' || c == '.'
  }

  /** Upper-casing first, then every '-', ' ' and '.' replaced by '_'. */
  function NormalizeChar(c: char): char {
    var u := UpperAscii(c);
    if IsSeparator(u) then '_' else u
  }

  /** The name `asEnum` looks up for a text: same length, no lower-case letter,
      no separator left. */
  function EnumName(s: string): (r: string)
    ensures |r| == |s|
    ensures forall i :: 0 <= i < |r| ==> !('a' <= r[i] <= 'z') && !IsSeparator(r[i])
    ensures forall i :: 0 <= i < |s| ==> r[i] == if IsSeparator(s[i]) then '_' else UpperAscii(s[i])
  {
    seq(|s|, i requires 0 <= i < |s| => NormalizeChar(s[i]))
  }

  /** Normalising a normalised name changes nothing. */
  lemma EnumNameIdempotent(s: string)
    ensures EnumName(EnumName(s)) == EnumName(s)
  {
    var n := EnumName(s);
    assert forall i :: 0 <= i < |n| ==> NormalizeChar(n[i]) == n[i];
  }

  /** The position of the first constant with exactly this name. */
  function IndexOf(names: seq<string>, name: string): (r: Option<nat>)
    ensures r.Some? ==> r.value < |names| && names[r.value] == name
    ensures r.Some? ==> forall j :: 0 <= j < r.value ==> names[j] != name
    ensures r.None? <==> name !in names
  {
    if names == [] then None
    else if names[0] == name then Some(0)
    else
      match IndexOf(names[1..], name)
      case None => None
      case Some(k) => Some(k + 1)
  }

  /** `asEnum(type)`: the constant (by position in `constants`) whose name is
      the normalised text; no constant for no text or for an unknown name. */
  function AsEnum(v: InputValue, constants: seq<string>): (r: Option<nat>)
    ensures r.Some? ==> AsText(v).Some? && r.value < |constants| && constants[r.value] == EnumName(v.value)
    ensures r.None? <==> AsText(v).None? || EnumName(v.value) !in constants
  {
    match Map(v, s => IndexOf(constants, EnumName(s)))
    case None => None
    case Some(found) => found
  }

  /** A name in the style of a Java constant: upper-case letters, digits and '_'. */
  predicate ConstantStyle(name: string) {
    forall i :: 0 <= i < |name| ==> 'A' <= name[i] <= 'Z' || '0' <= name[i] <= '9' || name[i] == '_'
  }

  function LowerAsciiText(s: string): (r: string)
    ensures |r| == |s|
  {
    seq(|s|, i requires 0 <= i < |s| => LowerAscii(s[i]))
  }

  /** A constant is found from its name written in lower case ("march" finds MARCH). */
  lemma AsEnumOfLowerCase(constants: seq<string>, i: nat)
    requires i < |constants| && constants[i] != "" && ConstantStyle(constants[i])
    requires forall j :: 0 <= j < i ==> constants[j] != constants[i]
    ensures AsEnum(Of(LowerAsciiText(constants[i])), constants) == Some(i)
  {
    var name := constants[i];
    var lower := LowerAsciiText(name);
    assert forall k :: 0 <= k < |name| ==> NormalizeChar(lower[k]) == name[k];
    assert EnumName(lower) == name;
  }

  // ---------------------------------------------------------------------------
  // Splitting at commas (String.split with the pattern \s*,\s*)

  /** The characters Java's regular expression class \s matches. */
  predicate IsWhitespace(c: char) {
    c == ' ' || c == '\t' || c == '\n' || c == '\U{000B}' || c == '\U{000C}' || c == '\r'
  }

  predicate NoComma(s: string) {
    forall i :: 0 <= i < |s| ==> s[i] != ','
  }

  function Join(parts: seq<string>, separator: string): string {
    if parts == [] then ""
    else if |parts| == 1 then parts[0]
    else parts[0] + separator + Join(parts[1..], separator)
  }

  /** The text cut at every comma: one field more than there are commas, and
      joining the fields with commas gives the text back. */
  function Fields(s: string): (r: seq<string>)
    ensures |r| > 0
    ensures forall k :: 0 <= k < |r| ==> NoComma(r[k])
    ensures Join(r, ",") == s
    decreases |s|
  {
    if s == [] then [""]
    else
      var rest := Fields(s[1..]);
      if s[0] == ',' then
        assert ([""] + rest)[1..] == rest;
        [""] + rest
      else
        var r := [[s[0]] + rest[0]] + rest[1..];
        assert r[1..] == rest[1..];
        r
  }

  predicate AllWhitespace(s: string) {
    forall j :: 0 <= j < |s| ==> IsWhitespace(s[j])
  }

  /** The longest run of whitespace at the start of `s` is removed. */
  function TrimLeading(s: string): (r: string)
    ensures |r| <= |s| && r == s[|s| - |r|..]
    ensures forall j :: 0 <= j < |s| - |r| ==> IsWhitespace(s[j])
    ensures r == [] || !IsWhitespace(r[0])
    decreases |s|
  {
    if s != [] && IsWhitespace(s[0]) then TrimLeading(s[1..]) else s
  }

  /** The longest run of whitespace at the end of `s` is removed. */
  function TrimTrailing(s: string): (r: string)
    ensures |r| <= |s| && r == s[..|r|]
    ensures forall j :: |r| <= j < |s| ==> IsWhitespace(s[j])
    ensures r == [] || !IsWhitespace(r[|r| - 1])
    decreases |s|
  {
    if s != [] && IsWhitespace(s[|s| - 1]) then TrimTrailing(s[..|s| - 1]) else s
  }

  /** `r` is the stretch of `s` that starts at `a`, and everything of `s`
      around it is whitespace. When `left` holds, `r` does not begin with
      whitespace, so the whole whitespace run at the start of `s` is gone;
      otherwise `r` starts where `s` does. `right` says the same of the end. */
  predicate TrimmedAround(s: string, r: string, a: nat, left: bool, right: bool) {
    && a + |r| <= |s| && r == s[a..a + |r|]
    && (forall j :: 0 <= j < a ==> IsWhitespace(s[j]))
    && (forall j :: a + |r| <= j < |s| ==> IsWhitespace(s[j]))
    && (if left then r == [] || !IsWhitespace(r[0]) else a == 0)
    && (if right then r == [] || !IsWhitespace(r[|r| - 1]) else a + |r| == |s|)
  }

  /** Where the trimmed field `i` starts in `fields[i]`. */
  function TrimOffset(fields: seq<string>, i: nat): nat
    requires i < |fields|
  {
    if i > 0 then |fields[i]| - |TrimLeading(fields[i])| else 0
  }

  /** Field `i` loses the whitespace run next to each comma that separates it
      from a neighbour; the first field keeps its leading whitespace and the
      last one its trailing whitespace. */
  function TrimField(fields: seq<string>, i: nat): (r: string)
    requires i < |fields|
    ensures TrimmedAround(fields[i], r, TrimOffset(fields, i), i > 0, i < |fields| - 1)
    ensures NoComma(fields[i]) ==> NoComma(r)
  {
    var s := fields[i];
    var f := if i > 0 then TrimLeading(s) else s;
    var r := if i < |fields| - 1 then TrimTrailing(f) else f;
    NoCommaSlice(s, |s| - |f|, |s|);
    NoCommaSlice(f, 0, |r|);
    TrimmedTwice(s, f, r, |s| - |f|, i > 0, i < |fields| - 1);
    r
  }

  lemma TrimmedTwice(s: string, f: string, r: string, a: nat, left: bool, right: bool)
    requires a + |f| == |s| && f == s[a..]
    requires forall j :: 0 <= j < a ==> IsWhitespace(s[j])
    requires if left then f == [] || !IsWhitespace(f[0]) else a == 0
    requires |r| <= |f| && r == f[..|r|]
    requires forall j :: |r| <= j < |f| ==> IsWhitespace(f[j])
    requires if right then r == [] || !IsWhitespace(r[|r| - 1]) else r == f
    ensures TrimmedAround(s, r, a, left, right)
  {
    forall j | a + |r| <= j < |s| ensures IsWhitespace(s[j]) {
      assert s[j] == f[j - a];
    }
    if left && r != [] {
      assert r[0] == f[0];
    }
  }

  lemma NoCommaSlice(s: string, a: nat, b: nat)
    requires a <= b <= |s|
    ensures NoComma(s) ==> NoComma(s[a..b])
  {
    assert forall j :: 0 <= j < b - a ==> s[a..b][j] == s[a + j];
  }

  function TrimAtCommas(fields: seq<string>): (r: seq<string>)
    ensures |r| == |fields|
    ensures forall k :: 0 <= k < |r| ==> r[k] == TrimField(fields, k)
  {
    seq(|fields|, i requires 0 <= i < |fields| => TrimField(fields, i))
  }

  /** Java's `split` without a limit drops the empty strings at the end. */
  function DropTrailingEmpty(parts: seq<string>): (r: seq<string>)
    ensures |r| <= |parts| && r == parts[..|r|]
    ensures r == [] || r[|r| - 1] != ""
    ensures forall k :: |r| <= k < |parts| ==> parts[k] == ""
  {
    if parts != [] && parts[|parts| - 1] == "" then DropTrailingEmpty(parts[..|parts| - 1]) else parts
  }

  /** `s.split("\\s*,\\s*")`: a text without a comma is its own single piece;
      otherwise the comma-separated fields, trimmed next to the commas, with
      the empty pieces at the end dropped. No piece holds a comma. */
  function CommaSplit(s: string): (r: seq<string>)
    ensures NoComma(s) ==> r == [s]
    ensures forall k :: 0 <= k < |r| ==> NoComma(r[k])
  {
    if NoComma(s) then [s] else DropTrailingEmpty(TrimAtCommas(Fields(s)))
  }

  /** The function a `split(function)` call applies to `get()`. */
  type Splitter = InputValue -> Outcome<seq<string>>

  /** `split(function)`: every piece the function returns becomes an input value, in order. */
  function SplitWith(v: InputValue, splitter: Splitter): (r: Outcome<seq<InputValue>>)
    ensures r.Ok? <==> splitter(v).Ok?
    ensures r.Ok? ==> |r.value| == |splitter(v).value|
    ensures r.Ok? ==> forall k :: 0 <= k < |r.value| ==> r.value[k] == Of(splitter(v).value[k])
  {
    match splitter(v)
    case Fail(f) => Fail(f)
    case Ok(pieces) => Ok(seq(|pieces|, k requires 0 <= k < |pieces| => Of(pieces[k])))
  }

  /** The default splitter: calling `split` on `null` raises NullPointerException. */
  function CommaSplitter(v: InputValue): Outcome<seq<string>> {
    if v.None? then Fail(NullPointer) else Ok(CommaSplit(v.value))
  }

  /** `split()`: fails on `null`, otherwise one input value per comma-separated piece. */
  function Split(v: InputValue): (r: Outcome<seq<InputValue>>)
    ensures r.Fail? <==> v.None?
    ensures r.Ok? ==> |r.value| == |CommaSplit(v.value)|
    ensures r.Ok? ==> forall k :: 0 <= k < |r.value| ==> r.value[k] == Some(CommaSplit(v.value)[k])
  {
    SplitWith(v, CommaSplitter)
  }

  /** Pieces that the splitter returns unchanged: non-empty, no comma, no
      whitespace at either end. */
  predicate Splittable(xs: seq<string>) {
    |xs| > 0 &&
    forall k :: 0 <= k < |xs| ==>
      xs[k] != "" && NoComma(xs[k]) && !IsWhitespace(xs[k][0]) && !IsWhitespace(xs[k][|xs[k]| - 1])
  }

  function Spaced(xs: seq<string>): (r: seq<string>)
    ensures |r| == |xs|
  {
    seq(|xs|, k requires 0 <= k < |xs| => " " + xs[k])
  }

  lemma {:induction false} FieldsWithoutComma(a: string)
    requires NoComma(a)
    ensures Fields(a) == [a]
    decreases |a|
  {
    if a != [] {
      FieldsWithoutComma(a[1..]);
    }
  }

  lemma {:induction false} FieldsAppend(a: string, b: string)
    requires NoComma(a)
    ensures Fields(a + "," + b) == [a] + Fields(b)
    decreases |a|
  {
    var s := a + "," + b;
    if a == [] {
      assert s[1..] == b;
    } else {
      assert s[1..] == a[1..] + "," + b;
      FieldsAppend(a[1..], b);
      assert [a[0]] + a[1..] == a;
    }
  }

  lemma {:induction false} FieldsOfJoin(p: string, xs: seq<string>)
    requires NoComma(p) && |xs| > 0
    requires forall k :: 0 <= k < |xs| ==> NoComma(xs[k])
    ensures Fields(p + Join(xs, ", ")) == [p + xs[0]] + Spaced(xs[1..])
    decreases |xs|
  {
    if |xs| == 1 {
      FieldsWithoutComma(p + xs[0]);
    } else {
      var tail := Join(xs[1..], ", ");
      assert Join(xs, ", ") == xs[0] + ", " + tail;
      RegroupAtComma(p, xs[0], tail);
      FieldsAppend(p + xs[0], " " + tail);
      FieldsOfJoin(" ", xs[1..]);
      SpacedFirst(xs[1..]);
      assert xs[1..][1..] == xs[2..];
    }
  }

  lemma RegroupAtComma(p: string, x: string, tail: string)
    ensures p + (x + ", " + tail) == (p + x) + "," + (" " + tail)
  {
    assert ", " == "," + " ";
  }

  lemma SpacedFirst(xs: seq<string>)
    requires |xs| > 0
    ensures Spaced(xs) == [" " + xs[0]] + Spaced(xs[1..])
  {
  }

  /** Whitespace in front of a text that does not begin with whitespace is
      exactly what `TrimLeading` removes. */
  lemma {:induction false} TrimLeadingPast(w: string, x: string)
    requires AllWhitespace(w)
    requires x == [] || !IsWhitespace(x[0])
    ensures TrimLeading(w + x) == x
    decreases |w|
  {
    if w == [] {
      assert w + x == x;
    } else {
      assert (w + x)[1..] == w[1..] + x;
      TrimLeadingPast(w[1..], x);
    }
  }

  /** Whitespace after a text that does not end with whitespace is exactly
      what `TrimTrailing` removes. */
  lemma {:induction false} TrimTrailingBefore(x: string, v: string)
    requires AllWhitespace(v)
    requires x == [] || !IsWhitespace(x[|x| - 1])
    ensures TrimTrailing(x + v) == x
    decreases |v|
  {
    if v == [] {
      assert x + v == x;
    } else {
      var s := x + v;
      assert s[..|s| - 1] == x + v[..|v| - 1];
      TrimTrailingBefore(x, v[..|v| - 1]);
    }
  }

  /** A field made of a piece `x` with whitespace `w` before it and `v`
      after it trims back to `x`, provided `x` does not begin (end) with
      whitespace where a comma comes before (after) it. */
  lemma TrimFieldPadded(fields: seq<string>, i: nat, w: string, x: string, v: string)
    requires i < |fields| && fields[i] == w + x + v
    requires AllWhitespace(w) && AllWhitespace(v)
    requires i == 0 ==> w == []
    requires i == |fields| - 1 ==> v == []
    requires i > 0 ==> x == [] || !IsWhitespace(x[0])
    requires i < |fields| - 1 ==> x == [] || !IsWhitespace(x[|x| - 1])
    ensures TrimField(fields, i) == x
  {
    TrimPadded(w, x, v, i > 0, i < |fields| - 1);
  }

  lemma TrimPadded(w: string, x: string, v: string, left: bool, right: bool)
    requires AllWhitespace(w) && AllWhitespace(v)
    requires !left ==> w == []
    requires !right ==> v == []
    requires left ==> x == [] || !IsWhitespace(x[0])
    requires right ==> x == [] || !IsWhitespace(x[|x| - 1])
    ensures var f := if left then TrimLeading(w + x + v) else w + x + v;
      (if right then TrimTrailing(f) else f) == x
  {
    if left && x == [] {
      assert w + x + v == w + v + x;
      TrimLeadingPast(w + v, x);
      return;
    }
    LeadingPadded(w, x, v, left);
    if right {
      TrimTrailingBefore(x, v);
    } else {
      assert x + v == x;
    }
  }

  lemma LeadingPadded(w: string, x: string, v: string, left: bool)
    requires AllWhitespace(w) && AllWhitespace(v)
    requires !left ==> w == []
    requires left ==> x != [] && !IsWhitespace(x[0])
    ensures (if left then TrimLeading(w + x + v) else w + x + v) == x + v
  {
    if !left {
      assert w + x + v == x + v;
    } else {
      assert w + x + v == w + (x + v);
      TrimLeadingPast(w, x + v);
    }
  }

  /** Trimming the fields of well-formed pieces joined with ", " gives the pieces back. */
  lemma TrimAtCommasOfJoined(xs: seq<string>)
    requires Splittable(xs)
    ensures TrimAtCommas([xs[0]] + Spaced(xs[1..])) == xs
  {
    var fields := [xs[0]] + Spaced(xs[1..]);
    var trimmed := TrimAtCommas(fields);
    forall k | 0 <= k < |xs| ensures trimmed[k] == xs[k] {
      if k > 0 {
        assert fields[k] == " " + xs[k] + "";
        TrimFieldPadded(fields, k, " ", xs[k], "");
      } else {
        assert fields[k] == "" + xs[k] + "";
        TrimFieldPadded(fields, k, "", xs[k], "");
      }
    }
  }

  lemma JoinHasComma(xs: seq<string>)
    requires |xs| > 1
    ensures !NoComma(Join(xs, ", "))
  {
    assert Join(xs, ", ")[|xs[0]|] == ',';
  }

  /** Joining well-formed pieces with ", " and splitting again gives the pieces back. */
  lemma CommaSplitJoin(xs: seq<string>)
    requires Splittable(xs)
    ensures CommaSplit(Join(xs, ", ")) == xs
  {
    var s := Join(xs, ", ");
    if |xs| == 1 {
      assert s == xs[0];
    } else {
      JoinHasComma(xs);
      FieldsOfJoin("", xs);
      assert "" + s == s;
      assert "" + xs[0] == xs[0];
      assert Fields(s) == [xs[0]] + Spaced(xs[1..]);
      TrimAtCommasOfJoined(xs);
      assert TrimAtCommas(Fields(s)) == xs;
      assert DropTrailingEmpty(xs) == xs;
    }
  }

  /** The text `xs[0] + pre[0] + "," + post[0] + xs[1] + pre[1] + "," + ...`:
      the pieces `xs` with `pre[k]` and `post[k]` on either side of the comma
      after `xs[k]`. */
  function Separated(xs: seq<string>, pre: seq<string>, post: seq<string>): string
    requires |xs| > 0 && |pre| == |xs| - 1 && |post| == |xs| - 1
    decreases |xs|
  {
    if |xs| == 1 then xs[0]
    else xs[0] + pre[0] + "," + post[0] + Separated(xs[1..], pre[1..], post[1..])
  }

  /** Pieces `xs` without commas, at least two of them, and whitespace runs
      `pre`/`post` around the commas between them, where no piece begins with
      whitespace after a comma or ends with whitespace before one. */
  predicate SeparatedPieces(xs: seq<string>, pre: seq<string>, post: seq<string>) {
    && |xs| >= 2 && |pre| == |xs| - 1 && |post| == |xs| - 1
    && (forall k :: 0 <= k < |xs| ==> NoComma(xs[k]))
    && (forall k :: 0 < k < |xs| ==> xs[k] == [] || !IsWhitespace(xs[k][0]))
    && (forall k :: 0 <= k < |xs| - 1 ==> xs[k] == [] || !IsWhitespace(xs[k][|xs[k]| - 1]))
    && (forall k :: 0 <= k < |pre| ==> AllWhitespace(pre[k]) && AllWhitespace(post[k]))
  }

  lemma RegroupSeparated(p: string, x: string, w: string, v: string, tail: string)
    ensures p + (x + w + "," + v + tail) == (p + x + w) + "," + (v + tail)
  {
  }

  /** The comma-separated fields of `p` followed by a separated text: every
      piece keeps the whitespace runs next to its commas. */
  lemma {:induction false} FieldsOfSeparated(p: string, xs: seq<string>, pre: seq<string>, post: seq<string>)
    requires |xs| > 0 && |pre| == |xs| - 1 && |post| == |xs| - 1
    requires NoComma(p)
    requires forall k :: 0 <= k < |xs| ==> NoComma(xs[k])
    requires forall k :: 0 <= k < |pre| ==> NoComma(pre[k]) && NoComma(post[k])
    ensures |Fields(p + Separated(xs, pre, post))| == |xs|
    ensures Fields(p + Separated(xs, pre, post))[0] == p + xs[0] + (if |xs| > 1 then pre[0] else "")
    ensures forall k :: 0 < k < |xs| ==>
      Fields(p + Separated(xs, pre, post))[k] == post[k - 1] + xs[k] + (if k < |xs| - 1 then pre[k] else "")
    decreases |xs|
  {
    if |xs| == 1 {
      FieldsWithoutComma(p + xs[0]);
      assert p + xs[0] + "" == p + xs[0];
    } else {
      var tail := Separated(xs[1..], pre[1..], post[1..]);
      RegroupSeparated(p, xs[0], pre[0], post[0], tail);
      FieldsAppend(p + xs[0] + pre[0], post[0] + tail);
      FieldsOfSeparated(post[0], xs[1..], pre[1..], post[1..]);
      var g := Fields(post[0] + tail);
      var f := Fields(p + Separated(xs, pre, post));
      assert f == [p + xs[0] + pre[0]] + g;
      forall k | 1 < k < |xs|
        ensures f[k] == post[k - 1] + xs[k] + (if k < |xs| - 1 then pre[k] else "")
      {
        assert f[k] == g[k - 1];
      }
    }
  }

  lemma WhitespaceHasNoComma(s: string)
    requires AllWhitespace(s)
    ensures NoComma(s)
  {
  }

  /** Java's `split("\\s*,\\s*")` on pieces separated by commas with any
      whitespace around them gives back the pieces, without the empty ones at
      the end: the whitespace next to each comma goes with the separator, the
      whitespace in front of the first piece and after the last one stays. */
  lemma CommaSplitSeparated(xs: seq<string>, pre: seq<string>, post: seq<string>)
    requires SeparatedPieces(xs, pre, post)
    ensures CommaSplit(Separated(xs, pre, post)) == DropTrailingEmpty(xs)
  {
    var s := Separated(xs, pre, post);
    assert s[|xs[0]| + |pre[0]|] == ',';
    forall k | 0 <= k < |pre| ensures NoComma(pre[k]) && NoComma(post[k]) {
      WhitespaceHasNoComma(pre[k]);
      WhitespaceHasNoComma(post[k]);
    }
    FieldsOfSeparated("", xs, pre, post);
    assert "" + s == s;
    var fields := Fields(s);
    var trimmed := TrimAtCommas(fields);
    forall k | 0 <= k < |xs| ensures trimmed[k] == xs[k] {
      var w := if k > 0 then post[k - 1] else "";
      var v := if k < |xs| - 1 then pre[k] else "";
      assert fields[k] == w + xs[k] + v;
      TrimFieldPadded(fields, k, w, xs[k], v);
    }
    assert trimmed == xs;
  }

  /** Tabs and spaces on either side of a comma go with the separator. */
  lemma CommaSplitMixedSpace()
    ensures CommaSplit("a ,\tb") == ["a", "b"]
  {
    assert Separated(["a", "b"], [" "], ["\t"]) == "a ,\tb";
    CommaSplitSeparated(["a", "b"], [" "], ["\t"]);
  }

  /** A leading comma gives a leading empty piece. */
  lemma CommaSplitLeadingComma()
    ensures CommaSplit(",a") == ["", "a"]
  {
    assert Separated(["", "a"], [""], [""]) == ",a";
    CommaSplitSeparated(["", "a"], [""], [""]);
  }

  /** Two commas in a row give an empty piece between them. */
  lemma CommaSplitDoubleComma()
    ensures CommaSplit("a,,b") == ["a", "", "b"]
  {
    assert Separated(["a", "", "b"], ["", ""], ["", ""]) == "a,,b";
    CommaSplitSeparated(["a", "", "b"], ["", ""], ["", ""]);
  }

  /** A trailing comma gives no trailing empty piece. */
  lemma CommaSplitTrailingComma()
    ensures CommaSplit("a,") == ["a"]
  {
    assert Separated(["a", ""], [""], [""]) == "a,";
    CommaSplitSeparated(["a", ""], [""], [""]);
    assert DropTrailingEmpty(["a", ""]) == ["a"];
  }

  /** "a, b, c, d, e" splits into five pieces, in order. */
  lemma SplitFivePieces()
    ensures CommaSplit("a, b, c, d, e") == ["a", "b", "c", "d", "e"]
  {
    var xs := ["a", "b", "c", "d", "e"];
    assert Join(xs[4..], ", ") == "e";
    assert Join(xs[3..], ", ") == "d, e";
    assert Join(xs[2..], ", ") == "c, d, e";
    assert Join(xs[1..], ", ") == "b, c, d, e";
    assert Join(xs, ", ") == "a, b, c, d, e";
    assert Splittable(xs);
    CommaSplitJoin(xs);
  }

  /** What the conversions give for `EMPTY`. */
  lemma EmptyConversions()
    ensures AsText(Empty).None? && AsInteger(Empty).None? && AsLong(Empty).None?
    ensures AsBoolean(Empty).None? && Split(Empty) == Fail(NullPointer)
  {
  }
}
