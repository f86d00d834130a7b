/** The printer and the parser as they run: a growing body, and a cursor that is read forward. */
module JsonText {
  import opened Sequences
  import opened LittleEndian
  import opened Wrappers
  import opened Json

  /** Quotes a string character by character. */
  method QuoteLoop(value: string) returns (quoted: string)
    ensures quoted == Quote(value)
  {
    quoted := "\"";
    for k := 0 to |value|
      invariant quoted + QuoteFirst(value[k..], |value[k..]|) == "\"" + QuoteFirst(value, |value|)
    {
      assert value[k..][1..] == value[k + 1..];
      Associate(quoted, QuoteChar(value[k]), QuoteFirst(value[k + 1..], |value[k + 1..]|));
      quoted := quoted + QuoteChar(value[k]);
    }
    assert quoted + QuoteFirst(value[|value|..], |value[|value|..]|) == quoted;
    quoted := quoted + "\"";
  }

  lemma {:induction false} BodyAppend(fields: seq<Field>, f: Field)
    ensures (Body(fields) == "" <==> fields == [])
    ensures Body(fields + [f]) == (if fields == [] then "" else Body(fields) + ",") + PrintField(f)
  {
    if fields == [] {
      assert fields + [f] == [f];
    } else {
      BodyStart(fields);
      var rest := fields[1..];
      BodyAppend(rest, f);
      assert (fields + [f])[1..] == rest + [f] && (fields + [f])[0] == fields[0];
      if rest != [] {
        Associate(PrintField(fields[0]) + ",", Body(rest) + ",", PrintField(f));
        Associate(PrintField(fields[0]) + ",", Body(rest), ",");
      }
    }
  }

  /** An object under construction; its keys keep insertion order. */
  class Object {
    var body: string
    ghost var fields: seq<Field>

    ghost predicate Valid()
      reads this
    {
      body == Body(fields)
    }

    constructor ()
      ensures Valid() && fields == []
    {
      body, fields := "", [];
    }

    method Key(key: string)
      modifies this`body
      ensures body == (if old(body) == "" then "" else old(body) + ",") + Quote(key) + ":"
    {
      if body != "" { body := body + ","; }
      var quoted := QuoteLoop(key);
      body := body + quoted;
      body := body + ":";
    }

    method String(key: string, value: string)
      requires Valid()
      modifies this
      ensures Valid() && fields == old(fields) + [Field(key, Text(value))]
    {
      BodyAppend(fields, Field(key, Text(value)));
      ghost var lead := if body == "" then "" else body + ",";
      Key(key);
      var quoted := QuoteLoop(value);
      body := body + quoted;
      fields := fields + [Field(key, Text(value))];
      Associate(lead, Quote(key), ":");
      Associate(lead, Quote(key) + ":", Quote(value));
    }

    method Integer(key: string, value: U64)
      requires Valid()
      modifies this
      ensures Valid() && fields == old(fields) + [Field(key, Number(value))]
    {
      BodyAppend(fields, Field(key, Number(value)));
      ghost var lead := if body == "" then "" else body + ",";
      Key(key);
      body := body + Decimal(value);
      fields := fields + [Field(key, Number(value))];
      Associate(lead, Quote(key), ":");
      Associate(lead, Quote(key) + ":", Decimal(value));
    }

    method Render() returns (encoded: string)
      requires Valid()
      ensures encoded == Encode(fields)
    {
      encoded := "{";
      encoded := encoded + body;
      encoded := encoded + "}";
    }
  }

  /** The text not yet read. */
  class Cursor {
    var rest: string

    constructor (text: string)
      ensures rest == text
    {
      rest := text;
    }

    method Next() returns (c: Option<char>)
      modifies this
      ensures old(rest) == "" ==> c == None && rest == ""
      ensures old(rest) != "" ==> c == Some(old(rest)[0]) && rest == old(rest)[1..]
    {
      if rest == "" { return None; }
      c := Some(rest[0]);
      rest := rest[1..];
    }

    method SkipWhitespace()
      modifies this
      ensures rest == SkipBlank(old(rest))
    {
      while rest != "" && IsWhitespace(rest[0])
        invariant SkipBlank(rest) == SkipBlank(old(rest))
        decreases |rest|
      {
        rest := rest[1..];
      }
    }

    method ReadUnicodeEscape() returns (c: Option<char>)
      modifies this
      ensures match UnicodeEscape(old(rest))
              case None => c == None
              case Some((character, end)) => c == Some(character) && rest == end
    {
      ghost var start := rest;
      var code := 0;
      var values: seq<nat> := [];
      for k := 0 to 4
        invariant k <= |start| && rest == start[k..] && |values| == k
        invariant forall i | 0 <= i < k :: HexValue(start[i]) == Some(values[i])
        invariant forall i | 0 <= i < k :: values[i] < 16
      {
        var digit := Next();
        if digit == None { return None; }
        var value := HexValue(digit.value);
        if value == None { return None; }
        values := values + [value.value];
      }
      code := ((values[0] * 16 + values[1]) * 16 + values[2]) * 16 + values[3];
      if code < 0xD800 || 0xE000 <= code < 0x1_0000 { return Some(code as char); }
      return None;
    }

    method ReadEscape() returns (c: Option<char>)
      modifies this
      ensures match Escape(old(rest))
              case None => c == None
              case Some((character, end)) => c == Some(character) && rest == end
    {
      var next := Next();
      match next
      case None => return None;
      case Some('"') => return Some('"');
      case Some('\\') => return Some('\\');
      case Some('/') => return Some('/');
      case Some('n') => return Some('\n');
      case Some('r') => return Some('\r');
      case Some('t') => return Some('\t');
      case Some('b') => return Some(0x8 as char);
      case Some('f') => return Some(0xC as char);
      case Some('u') => c := ReadUnicodeEscape();
      case Some(_) => return None;
    }

    /** Reads one string literal. */
    method ReadString() returns (value: Option<string>)
      modifies this
      ensures match ParseString(old(rest))
              case None => value == None
              case Some((text, end)) => value == Some(text) && rest == end
    {
      var open := Next();
      if open != Some('"') { return None; }
      ghost var start := rest;
      var text: string := "";
      PrependNothing(StringTail(rest));
      while true
        invariant StringTail(start) == Prepend(text, StringTail(rest))
        decreases |rest|
      {
        ghost var before := rest;
        var next := Next();
        if next == None { return None; }
        if next == Some('"') {
          assert text + "" == text;
          return Some(text);
        }
        if next == Some('\\') {
          EscapeShrinks(rest);
          var c := ReadEscape();
          if c == None { return None; }
          PrependSnoc(text, c.value, StringTail(rest));
          text := text + [c.value];
        } else {
          PrependSnoc(text, next.value, StringTail(rest));
          text := text + [next.value];
        }
      }
    }

    method ReadNumber() returns (value: Option<U64>)
      modifies this
      ensures match ParseNumber(old(rest))
              case None => value == None
              case Some((number, end)) => value == Some(number) && rest == end
    {
      ghost var start := rest;
      var digits: string := "";
      while rest != "" && IsDigit(rest[0])
        invariant start == digits + rest && AllDigits(digits)
        decreases |rest|
      {
        var digit := Next();
        digits := digits + [digit.value];
      }
      RunOfDigits(digits, rest);
      assert start[..|digits|] == digits && start[|digits|..] == rest;
      if digits == "" { return None; }
      var number := DecimalValue(digits);
      return if number < 0x1_0000_0000_0000_0000 then Some(number) else None;
    }

    method ReadField() returns (field: Option<Field>)
      modifies this
      ensures match ParseField(old(rest))
              case None => field == None
              case Some((f, end)) => field == Some(f) && rest == end
    {
      SkipWhitespace();
      if rest == "" || rest[0] != '"' { return None; }
      var key := ReadString();
      if key == None { return None; }
      SkipWhitespace();
      var colon := Next();
      if colon != Some(':') { return None; }
      SkipWhitespace();
      var value: Value;
      if rest != "" && rest[0] == '"' {
        var text := ReadString();
        if text == None { return None; }
        value := Text(text.value);
      } else if rest != "" && IsDigit(rest[0]) {
        var number := ReadNumber();
        if number == None { return None; }
        value := Number(number.value);
      } else {
        return None;
      }
      SkipWhitespace();
      return Some(Field(key.value, value));
    }
  }

  /** `text` put before what was read. */
  function Prepend(text: string, r: Option<(string, string)>): Option<(string, string)> {
    match r
    case None => None
    case Some((more, end)) => Some((text + more, end))
  }

  lemma PrependNothing(r: Option<(string, string)>)
    ensures Prepend("", r) == r
  {
    if r.Some? { assert "" + r.value.0 == r.value.0; }
  }

  lemma PrependSnoc(text: string, c: char, r: Option<(string, string)>)
    ensures Prepend(text + [c], r) == Prepend(text, Prepend([c], r))
  {
    if r.Some? { Associate(text, [c], r.value.0); }
  }

  /** Reads one flat object, pushing each field as it closes. */
  method ReadFlatObject(text: string) returns (result: Option<seq<Field>>)
    ensures result == ParseFlatObject(text)
  {
    var cursor := new Cursor(Trim(text));
    var open := cursor.Next();
    if open != Some('{') { return None; }
    cursor.SkipWhitespace();
    if cursor.rest != "" && cursor.rest[0] == '}' { return Some([]); }
    ghost var start := cursor.rest;
    var fields: seq<Field> := [];
    PushedNothing(ParseFields(start));
    while true
      invariant ParseFields(start) == Pushed(fields, ParseFields(cursor.rest))
      decreases |cursor.rest|
    {
      FieldShrinks(cursor.rest);
      var field := cursor.ReadField();
      if field == None { return None; }
      var mark := cursor.Next();
      if mark == Some('}') { return Some(fields + [field.value]); }
      if mark != Some(',') { return None; }
      PushedSnoc(fields, field.value, ParseFields(cursor.rest));
      fields := fields + [field.value];
    }
  }

  function Pushed(fields: seq<Field>, r: Option<seq<Field>>): Option<seq<Field>> {
    match r
    case None => None
    case Some(more) => Some(fields + more)
  }

  lemma PushedNothing(r: Option<seq<Field>>)
    ensures Pushed([], r) == r
  {
    if r.Some? { assert [] + r.value == r.value; }
  }

  lemma PushedSnoc(fields: seq<Field>, f: Field, r: Option<seq<Field>>)
    ensures Pushed(fields + [f], r) == Pushed(fields, Pushed([f], r))
  {
    if r.Some? { assert fields + [f] + r.value == fields + ([f] + r.value); }
  }
}
