/** The run record's JSON: an object printer and a flat-object parser over one character cursor. */
module Json {
  import opened Sequences
  import opened LittleEndian
  import opened Wrappers

  datatype Value = Text(text: string) | Number(number: U64)

  datatype Field = Field(key: string, value: Value)

  // ---------------------------------------------------------------- printing

  function HexDigit(n: nat): char
    requires n < 16
  {
    "0123456789abcdef"[n]
  }

  function QuoteChar(c: char): string {
    if c == '"' then "\\\""
    else if c == '\\' then "\\\\"
    else if c == '\n' then "\\n"
    else if c == '\r' then "\\r"
    else if c == '\t' then "\\t"
    else if c < ' ' then "\\u00" + [HexDigit(c as int / 16), HexDigit(c as int % 16)]
    else [c]
  }

  /** The first `n` characters, each written as a JSON string holds it. */
  function QuoteFirst(s: string, n: nat): string
    requires n <= |s|
    decreases n, s
  {
    if n == 0 then "" else QuoteChar(s[0]) + QuoteFirst(s[1..], n - 1)
  }

  /** One JSON string literal. */
  function Quote(s: string): string {
    "\"" + QuoteFirst(s, |s|) + "\""
  }

  function Digit(n: nat): char
    requires n < 10
  {
    "0123456789"[n]
  }

  /** A number in decimal. */
  function Decimal(n: nat): (s: string)
    ensures s != ""
  {
    if n < 10 then [Digit(n)] else Decimal(n / 10) + [Digit(n % 10)]
  }

  function PrintValue(v: Value): string {
    match v
    case Text(text) => Quote(text)
    case Number(number) => Decimal(number)
  }

  function PrintField(f: Field): string {
    Quote(f.key) + ":" + PrintValue(f.value)
  }

  /** The fields of an object, without its braces. */
  function Body(fields: seq<Field>): string {
    if fields == [] then ""
    else if |fields| == 1 then PrintField(fields[0])
    else PrintField(fields[0]) + "," + Body(fields[1..])
  }

  function Encode(fields: seq<Field>): string {
    "{" + Body(fields) + "}"
  }

  // ---------------------------------------------------------------- reading

  /** The Unicode White_Space property. */
  predicate IsWhitespace(c: char) {
    var n := c as int;
    9 <= n <= 13 || n == 0x20 || n == 0x85 || n == 0xA0 || n == 0x1680 || 0x2000 <= n <= 0x200A
    || n == 0x2028 || n == 0x2029 || n == 0x202F || n == 0x205F || n == 0x3000
  }

  predicate IsDigit(c: char) {
    '0' <= c <= '9'
  }

  function HexValue(c: char): Option<nat> {
    if '0' <= c <= '9' then Some(c as int - '0' as int)
    else if 'a' <= c <= 'f' then Some(c as int - 'a' as int + 10)
    else if 'A' <= c <= 'F' then Some(c as int - 'A' as int + 10)
    else None
  }

  function SkipBlank(s: string): string {
    if s != "" && IsWhitespace(s[0]) then SkipBlank(s[1..]) else s
  }

  function TrimEnd(s: string): string {
    if s != "" && IsWhitespace(s[|s| - 1]) then TrimEnd(s[..|s| - 1]) else s
  }

  function Trim(s: string): string {
    TrimEnd(SkipBlank(s))
  }

  /** Four hexadecimal digits that name a character, after `\u`. */
  function UnicodeEscape(s: string): Option<(char, string)> {
    if |s| < 4 then None
    else
      var a :- HexValue(s[0]);
      var b :- HexValue(s[1]);
      var c :- HexValue(s[2]);
      var d :- HexValue(s[3]);
      var code := ((a * 16 + b) * 16 + c) * 16 + d;
      if code < 0xD800 || 0xE000 <= code < 0x1_0000 then Some((code as char, s[4..])) else None
  }

  /** The character an escape stands for, after its backslash. */
  function Escape(s: string): Option<(char, string)> {
    if s == "" then None
    else if s[0] == '"' then Some(('"', s[1..]))
    else if s[0] == '\\' then Some(('\\', s[1..]))
    else if s[0] == '/' then Some(('/', s[1..]))
    else if s[0] == 'n' then Some(('\n', s[1..]))
    else if s[0] == 'r' then Some(('\r', s[1..]))
    else if s[0] == 't' then Some(('\t', s[1..]))
    else if s[0] == 'b' then Some((0x8 as char, s[1..]))
    else if s[0] == 'f' then Some((0xC as char, s[1..]))
    else if s[0] == 'u' then UnicodeEscape(s[1..])
    else None
  }

  lemma EscapeShrinks(s: string)
    ensures Escape(s).Some? ==> |Escape(s).value.1| < |s|
  {
  }

  /** The rest of a string literal after its opening quotation mark. */
  function StringTail(s: string): Option<(string, string)>
    decreases |s|
  {
    if s == "" then None
    else if s[0] == '"' then Some(("", s[1..]))
    else if s[0] == '\\' then
      var (c, rest) :- Escape(s[1..]);
      EscapeShrinks(s[1..]);
      var (more, end) :- StringTail(rest);
      Some(([c] + more, end))
    else
      var (more, end) :- StringTail(s[1..]);
      Some(([s[0]] + more, end))
  }

  function ParseString(s: string): Option<(string, string)> {
    if s == "" || s[0] != '"' then None else StringTail(s[1..])
  }

  /** The digits at the front of a string. */
  function DigitRun(s: string): nat {
    if s != "" && IsDigit(s[0]) then 1 + DigitRun(s[1..]) else 0
  }

  lemma DigitRunFits(s: string)
    ensures DigitRun(s) <= |s| && AllDigits(s[..DigitRun(s)])
  {
    if s != "" && IsDigit(s[0]) { DigitRunFits(s[1..]); }
  }

  predicate AllDigits(s: string) {
    forall c | c in s :: IsDigit(c)
  }

  /** A run of digits read as a number. */
  function DecimalValue(s: string): nat
    requires AllDigits(s)
  {
    if s == "" then 0
    else
      assert s[|s| - 1] in s;
      10 * DecimalValue(s[..|s| - 1]) + (s[|s| - 1] as int - '0' as int)
  }

  function ParseNumber(s: string): Option<(U64, string)> {
    DigitRunFits(s);
    var n := DigitRun(s);
    if n == 0 then None
    else
      var value := DecimalValue(s[..n]);
      if value < 0x1_0000_0000_0000_0000 then Some((value, s[n..])) else None
  }

  function ParseValue(s: string): Option<(Value, string)> {
    if s == "" then None
    else if s[0] == '"' then
      var (text, rest) :- ParseString(s);
      Some((Text(text), rest))
    else if IsDigit(s[0]) then
      var (number, rest) :- ParseNumber(s);
      Some((Number(number), rest))
    else None
  }

  /** One field and the blanks around its parts. */
  function ParseField(s: string): Option<(Field, string)> {
    var s1 := SkipBlank(s);
    if s1 == "" || s1[0] != '"' then None
    else
      var (key, s2) :- ParseString(s1);
      var s3 := SkipBlank(s2);
      if s3 == "" || s3[0] != ':' then None
      else
        var (value, s4) :- ParseValue(SkipBlank(s3[1..]));
        Some((Field(key, value), SkipBlank(s4)))
  }

  /** The fields up to the closing brace; what follows the brace is not read. */
  function ParseFields(s: string): Option<seq<Field>>
    decreases |s|
  {
    var (field, rest) :- ParseField(s);
    FieldShrinks(s);
    if rest == "" then None
    else if rest[0] == '}' then Some([field])
    else if rest[0] == ',' then
      var more :- ParseFields(rest[1..]);
      Some([field] + more)
    else None
  }

  function ParseFlatObject(text: string): Option<seq<Field>> {
    var s := Trim(text);
    if s == "" || s[0] != '{' then None
    else
      var inner := SkipBlank(s[1..]);
      if inner != "" && inner[0] == '}' then Some([]) else ParseFields(inner)
  }

  // ---------------------------------------------------------------- parsing terminates

  lemma {:induction false} SkipShrinks(s: string)
    ensures |SkipBlank(s)| <= |s|
  {
    if s != "" && IsWhitespace(s[0]) { SkipShrinks(s[1..]); }
  }

  lemma {:induction false} TailShrinks(s: string)
    ensures StringTail(s).Some? ==> |StringTail(s).value.1| < |s|
    decreases |s|
  {
    if s != "" && s[0] == '\\' && Escape(s[1..]).Some? {
      EscapeShrinks(s[1..]);
      TailShrinks(Escape(s[1..]).value.1);
    } else if s != "" && s[0] != '"' && s[0] != '\\' {
      TailShrinks(s[1..]);
    }
  }

  lemma ValueShrinks(s: string)
    ensures ParseValue(s).Some? ==> |ParseValue(s).value.1| < |s|
  {
    if s != "" {
      TailShrinks(s[1..]);
      DigitRunFits(s);
    }
  }

  lemma FieldShrinks(s: string)
    ensures ParseField(s).Some? ==> |ParseField(s).value.1| < |s|
  {
    var s1 := SkipBlank(s);
    SkipShrinks(s);
    if s1 != "" && s1[0] == '"' && ParseString(s1).Some? {
      TailShrinks(s1[1..]);
      var s3 := SkipBlank(ParseString(s1).value.1);
      SkipShrinks(ParseString(s1).value.1);
      if s3 != "" && s3[0] == ':' {
        SkipShrinks(s3[1..]);
        ValueShrinks(SkipBlank(s3[1..]));
        if ParseValue(SkipBlank(s3[1..])).Some? { SkipShrinks(ParseValue(SkipBlank(s3[1..])).value.1); }
      }
    }
  }

  // ---------------------------------------------------------------- the round trip

  lemma HexRoundTrip(n: nat)
    requires n < 16
    ensures HexValue(HexDigit(n)) == Some(n)
  {
  }

  lemma QuotedChar(c: char, rest: string)
    ensures var s := QuoteChar(c) + rest;
            StringTail(s) == match StringTail(rest)
                             case None => None
                             case Some((more, end)) => Some(([c] + more, end))
  {
    var s := QuoteChar(c) + rest;
    if c in {'"', '\\', '\n', '\r', '\t'} {
      assert s[1..][1..] == rest;
    } else if c < ' ' {
      HexRoundTrip(0);
      HexRoundTrip(c as int / 16);
      HexRoundTrip(c as int % 16);
      assert s[1..] == "u00" + [HexDigit(c as int / 16), HexDigit(c as int % 16)] + rest;
      assert s[1..][1..][4..] == rest;
      assert UnicodeEscape(s[1..][1..]) == Some((c, rest));
    } else {
      assert s[1..] == rest;
    }
  }

  /** Reading a printed literal gives the string back, for every string. */
  lemma {:induction false} QuotedTail(text: string, rest: string)
    ensures StringTail(QuoteFirst(text, |text|) + "\"" + rest) == Some((text, rest))
  {
    if text == "" {
      assert QuoteFirst(text, |text|) + "\"" + rest == "\"" + rest;
      assert ("\"" + rest)[1..] == rest;
    } else {
      var tail := QuoteFirst(text[1..], |text[1..]|) + "\"" + rest;
      QuotedTail(text[1..], rest);
      QuotedChar(text[0], tail);
      var more := QuoteFirst(text[1..], |text| - 1);
      Associate(QuoteChar(text[0]), more, "\"");
      Associate(QuoteChar(text[0]), more + "\"", rest);
      assert text == [text[0]] + text[1..];
    }
  }

  lemma QuoteRoundTrip(text: string, rest: string)
    ensures ParseString(Quote(text) + rest) == Some((text, rest))
  {
    QuotedTail(text, rest);
    Unquoted(QuoteFirst(text, |text|), rest);
  }

  lemma Unquoted(body: string, rest: string)
    ensures ("\"" + body + "\"" + rest)[1..] == body + "\"" + rest
  {
  }

  lemma {:induction false} DecimalDigits(n: nat)
    ensures AllDigits(Decimal(n)) && DecimalValue(Decimal(n)) == n
  {
    if n >= 10 {
      DecimalDigits(n / 10);
      assert Decimal(n)[..|Decimal(n)| - 1] == Decimal(n / 10);
    }
  }

  lemma {:induction false} RunOfDigits(digits: string, rest: string)
    requires AllDigits(digits) && (rest == "" || !IsDigit(rest[0]))
    ensures DigitRun(digits + rest) == |digits|
  {
    if digits == "" {
      assert digits + rest == rest;
    } else {
      assert digits[0] in digits;
      RunOfDigits(digits[1..], rest);
      assert (digits + rest)[1..] == digits[1..] + rest;
    }
  }

  lemma ValueRoundTrip(v: Value, rest: string)
    requires rest == "" || !IsDigit(rest[0])
    ensures ParseValue(PrintValue(v) + rest) == Some((v, rest))
  {
    match v
    case Text(text) => QuoteRoundTrip(text, rest);
    case Number(number) =>
      var digits := Decimal(number);
      DecimalDigits(number);
      RunOfDigits(digits, rest);
      assert digits[0] in digits;
      assert (digits + rest)[..|digits|] == digits && (digits + rest)[|digits|..] == rest;
  }

  lemma FieldFromParts(s: string, key: string, after: string, value: Value, rest: string)
    requires s != "" && s[0] == '"' && ParseString(s) == Some((key, ":" + after))
    requires after != "" && !IsWhitespace(after[0]) && ParseValue(after) == Some((value, rest))
    requires rest != "" && !IsWhitespace(rest[0])
    ensures ParseField(s) == Some((Field(key, value), rest))
  {
    assert (":" + after)[1..] == after;
  }

  lemma FieldRoundTrip(f: Field, rest: string)
    requires rest != "" && (rest[0] == ',' || rest[0] == '}')
    ensures ParseField(PrintField(f) + rest) == Some((f, rest))
  {
    var after := PrintValue(f.value) + rest;
    QuoteRoundTrip(f.key, ":" + after);
    ValueRoundTrip(f.value, rest);
    ValueStart(f.value);
    FieldFromParts(Quote(f.key) + (":" + after), f.key, after, f.value, rest);
    Associate(Quote(f.key) + ":", PrintValue(f.value), rest);
    Associate(Quote(f.key), ":", after);
  }

  lemma ValueStart(v: Value)
    ensures PrintValue(v) != "" && !IsWhitespace(PrintValue(v)[0])
  {
    if v.Number? {
      DecimalDigits(v.number);
      assert Decimal(v.number)[0] in Decimal(v.number);
    }
  }

  lemma {:induction false} FieldsRoundTrip(fields: seq<Field>)
    requires fields != []
    ensures ParseFields(Body(fields) + "}") == Some(fields)
  {
    if |fields| == 1 {
      FieldRoundTrip(fields[0], "}");
      assert fields == [fields[0]];
    } else {
      var more := Body(fields[1..]) + "}";
      FieldsRoundTrip(fields[1..]);
      FieldRoundTrip(fields[0], "," + more);
      ParseComma(PrintField(fields[0]) + ("," + more), fields[0], more, fields[1..]);
      BodySplit(fields);
      assert fields == [fields[0]] + fields[1..];
    }
  }

  lemma ParseComma(s: string, f: Field, rest: string, more: seq<Field>)
    requires ParseField(s) == Some((f, "," + rest)) && ParseFields(rest) == Some(more)
    ensures ParseFields(s) == Some([f] + more)
  {
    assert ("," + rest)[1..] == rest;
  }

  lemma BodySplit(fields: seq<Field>)
    requires |fields| > 1
    ensures Body(fields) + "}" == PrintField(fields[0]) + ("," + (Body(fields[1..]) + "}"))
  {
    Associate(PrintField(fields[0]) + ",", Body(fields[1..]), "}");
    Associate(PrintField(fields[0]), ",", Body(fields[1..]) + "}");
  }

  lemma TrimEncoded(fields: seq<Field>)
    ensures Trim(Encode(fields)) == Encode(fields)
  {
    var s := Encode(fields);
    assert s[0] == '{' && s[|s| - 1] == '}';
  }

  /** Every flat object of strings and 64-bit numbers reads back as the same fields in order. */
  lemma ObjectRoundTrip(fields: seq<Field>)
    ensures ParseFlatObject(Encode(fields)) == Some(fields)
  {
    TrimEncoded(fields);
    var s := Encode(fields);
    assert s[1..] == Body(fields) + "}";
    if fields == [] {
      assert s[1..] == "}";
    } else {
      FieldsRoundTrip(fields);
      assert s[1..][0] == '"' by { BodyStart(fields); }
    }
  }

  lemma BodyStart(fields: seq<Field>)
    requires fields != []
    ensures Body(fields) != "" && Body(fields)[0] == '"'
  {
    assert PrintField(fields[0])[0] == '"';
  }

  // ---------------------------------------------------------------- one line per object

  predicate OneLine(s: string) {
    forall c | c in s :: c != '\n' && c != '\r'
  }

  lemma {:induction false} QuoteOneLine(s: string)
    ensures OneLine(QuoteFirst(s, |s|))
  {
    if s != "" {
      QuoteOneLine(s[1..]);
      CharOneLine(s[0]);
      JoinOneLine(QuoteChar(s[0]), QuoteFirst(s[1..], |s| - 1));
    }
  }

  lemma CharOneLine(c: char)
    ensures OneLine(QuoteChar(c))
  {
  }

  lemma JoinOneLine(a: string, b: string)
    requires OneLine(a) && OneLine(b)
    ensures OneLine(a + b)
  {
  }

  lemma FieldOneLine(f: Field)
    ensures OneLine(PrintField(f))
  {
    QuoteOneLine(f.key);
    match f.value
    case Text(text) => QuoteOneLine(text);
    case Number(number) => DecimalDigits(number);
  }

  lemma {:induction false} BodyOneLine(fields: seq<Field>)
    ensures OneLine(Body(fields))
  {
    if fields != [] {
      FieldOneLine(fields[0]);
      if |fields| > 1 { BodyOneLine(fields[1..]); }
    }
  }

  /** An encoded object contains no line break. */
  lemma EncodedOneLine(fields: seq<Field>)
    ensures OneLine(Encode(fields))
  {
    BodyOneLine(fields);
  }
}
