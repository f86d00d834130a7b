/** The texts the journal reader accepts, as a grammar, and the proof that it accepts exactly those. */
module JsonGrammar {
  import opened Sequences
  import opened Wrappers
  import opened Json

  // ---------------------------------------------------------------- strings

  /** `c` is a hexadecimal digit for `n`, in either case. */
  predicate Hex(c: char, n: nat) {
    n < 16 && (c == "0123456789abcdef"[n] || c == "0123456789ABCDEF"[n])
  }

  lemma HexExactly(c: char, n: nat)
    ensures HexValue(c) == Some(n) <==> Hex(c, n)
  {
  }

  /** The character behind a backslash and what the two stand for. */
  predicate Escapes(e: char, c: char) {
    || (e == c && e in {'"', '\\', '/'})
    || (e == 'n' && c as int == 10) || (e == 'r' && c as int == 13) || (e == 't' && c as int == 9)
    || (e == 'b' && c as int == 8) || (e == 'f' && c as int == 12)
  }

  /** Four hexadecimal digits for `n`. */
  predicate HexCode(digits: string, n: int) {
    && |digits| == 4
    && HexValue(digits[0]).Some? && HexValue(digits[1]).Some? && HexValue(digits[2]).Some? && HexValue(digits[3]).Some?
    && n == 4096 * HexValue(digits[0]).value + 256 * HexValue(digits[1]).value + 16 * HexValue(digits[2]).value
            + HexValue(digits[3]).value
  }

  /** One character as a string literal may spell it. */
  predicate Spells(unit: string, c: char) {
    || (unit == [c] && c != '"' && c != '\\')
    || (|unit| == 2 && unit[0] == '\\' && Escapes(unit[1], c))
    || (|unit| == 6 && unit[0] == '\\' && unit[1] == 'u' && HexCode(unit[2..], c as int))
  }

  predicate SpellsAll(units: seq<string>, text: string) {
    |units| == |text| && forall i | 0 <= i < |text| :: Spells(units[i], text[i])
  }

  ghost predicate Literal(s: string, text: string) {
    exists units :: SpellsAll(units, text) && s == "\"" + Flatten(units) + "\""
  }

  /** A unicode escape reads as a character exactly when its four digits are that character's code. */
  lemma UnicodeReads(digits: string, rest: string, c: char)
    requires |digits| == 4
    ensures UnicodeEscape(digits + rest) == Some((c, rest)) <==> HexCode(digits, c as int)
    ensures UnicodeEscape(digits + rest).Some? ==> UnicodeEscape(digits + rest).value.1 == rest
  {
    var s := digits + rest;
    assert s[4..] == rest && s[0] == digits[0] && s[1] == digits[1] && s[2] == digits[2] && s[3] == digits[3];
  }

  /** What one spelled character adds to a literal. */
  function Prefixed(c: char, tail: Option<(string, string)>): Option<(string, string)> {
    match tail
    case None => None
    case Some((more, end)) => Some(([c] + more, end))
  }

  lemma UnitReads(unit: string, c: char, rest: string)
    requires Spells(unit, c)
    ensures StringTail(unit + rest) == Prefixed(c, StringTail(rest))
  {
    var s := unit + rest;
    if |unit| == 1 {
      assert s[1..] == rest;
    } else {
      UnitEscapes(unit, c, rest);
      EscapeShrinks(s[1..]);
    }
  }

  lemma UnitEscapes(unit: string, c: char, rest: string)
    requires Spells(unit, c) && |unit| > 1
    ensures (unit + rest)[0] == '\\' && Escape((unit + rest)[1..]) == Some((c, rest))
  {
    var s := unit + rest;
    if |unit| == 2 {
      assert s[1..] == [unit[1]] + rest;
      EscapeReads(unit[1], c, rest);
    } else {
      var digits := unit[2..];
      assert s[1..] == ['u'] + (digits + rest) && s[1..][1..] == digits + rest;
      UnicodeReads(digits, rest, c);
    }
  }

  lemma EscapeReads(e: char, c: char, rest: string)
    requires Escapes(e, c)
    ensures Escape([e] + rest) == Some((c, rest))
  {
    assert ([e] + rest)[1..] == rest;
  }

  lemma {:induction false} StringComplete(units: seq<string>, text: string, rest: string)
    requires SpellsAll(units, text)
    ensures StringTail(Flatten(units) + "\"" + rest) == Some((text, rest))
  {
    if units == [] {
      assert Flatten(units) + "\"" + rest == "\"" + rest;
      assert ("\"" + rest)[1..] == rest;
    } else {
      var tail := Flatten(units[1..]) + "\"" + rest;
      StringComplete(units[1..], text[1..], rest);
      UnitReads(units[0], text[0], tail);
      Associate(units[0], Flatten(units[1..]), "\"");
      Associate(units[0], Flatten(units[1..]) + "\"", rest);
      assert text == [text[0]] + text[1..];
    }
  }

  /** The front of a literal that is neither its end nor a plain character, as one unit. */
  lemma EscapeSound(s: string) returns (unit: string)
    requires Escape(s).Some?
    ensures Spells(unit, Escape(s).value.0) && ['\\'] + s == unit + Escape(s).value.1
  {
    var (c, rest) := Escape(s).value;
    if s[0] == 'u' {
      var digits := s[1..][..4];
      assert s[1..] == digits + s[1..][4..];
      UnicodeReads(digits, s[1..][4..], c);
      unit := ['\\', 'u'] + digits;
      assert unit[2..] == digits;
    } else {
      unit := ['\\', s[0]];
    }
  }

  lemma {:induction false} StringSound(s: string) returns (units: seq<string>)
    requires StringTail(s).Some?
    ensures var (text, rest) := StringTail(s).value;
            SpellsAll(units, text) && s == Flatten(units) + "\"" + rest
    decreases |s|
  {
    if s[0] == '"' {
      units := [];
      assert s == [s[0]] + s[1..];
    } else {
      var unit, c, after := [s[0]], s[0], s[1..];
      if s[0] == '\\' {
        EscapeShrinks(s[1..]);
        unit := EscapeSound(s[1..]);
        c, after := Escape(s[1..]).value.0, Escape(s[1..]).value.1;
        assert ['\\'] + s[1..] == s;
      }
      assert s == unit + after;
      var more := StringSound(after);
      units := [unit] + more;
      var rest := StringTail(after).value.1;
      assert units[1..] == more;
      Associate(unit, Flatten(more), "\"");
      Associate(unit, Flatten(more) + "\"", rest);
    }
  }

  /** A string is read exactly where a literal for it stands. */
  lemma StringExactly(s: string, text: string, rest: string)
    ensures ParseString(s) == Some((text, rest)) <==> exists word :: Literal(word, text) && s == word + rest
  {
    if ParseString(s) == Some((text, rest)) {
      var units := StringSound(s[1..]);
      var word := "\"" + Flatten(units) + "\"";
      assert s == ['"'] + s[1..];
      assert s == word + rest;
      assert Literal(word, text);
    }
    forall word | Literal(word, text) && s == word + rest ensures ParseString(s) == Some((text, rest)) {
      var units :| SpellsAll(units, text) && word == "\"" + Flatten(units) + "\"";
      StringComplete(units, text, rest);
      Unquoted(Flatten(units), rest);
    }
  }

  // ---------------------------------------------------------------- values

  ghost predicate ValueText(word: string, v: Value) {
    match v
    case Text(text) => Literal(word, text)
    case Number(number) => word != "" && AllDigits(word) && DecimalValue(word) == number
  }

  predicate NoDigitFirst(s: string) {
    s == "" || !IsDigit(s[0])
  }

  lemma {:induction false} DigitRunStops(s: string)
    ensures DigitRun(s) <= |s| && NoDigitFirst(s[DigitRun(s)..])
  {
    if s != "" && IsDigit(s[0]) {
      DigitRunStops(s[1..]);
      assert s[DigitRun(s)..] == s[1..][DigitRun(s[1..])..];
    }
  }

  lemma ValueSound(s: string) returns (word: string)
    requires ParseValue(s).Some?
    ensures var (v, rest) := ParseValue(s).value;
            ValueText(word, v) && s == word + rest
  {
    var (v, rest) := ParseValue(s).value;
    match v
    case Text(text) =>
      StringExactly(s, text, rest);
      word :| Literal(word, text) && s == word + rest;
    case Number(number) =>
      DigitRunFits(s);
      word := s[..DigitRun(s)];
      assert s == word + s[DigitRun(s)..];
  }

  lemma ValueComplete(word: string, v: Value, rest: string)
    requires ValueText(word, v) && NoDigitFirst(rest)
    ensures ParseValue(word + rest) == Some((v, rest))
  {
    var s := word + rest;
    match v
    case Text(text) =>
      StringExactly(s, text, rest);
      assert ParseString(s) == Some((text, rest));
    case Number(number) =>
      RunOfDigits(word, rest);
      assert word[0] in word;
      assert s[..|word|] == word && s[|word|..] == rest;
  }

  // ---------------------------------------------------------------- blanks

  predicate Blank(s: string) {
    forall c | c in s :: IsWhitespace(c)
  }

  predicate NoBlankFirst(s: string) {
    s == "" || !IsWhitespace(s[0])
  }

  lemma {:induction false} SkipSound(s: string) returns (blank: string)
    ensures Blank(blank) && s == blank + SkipBlank(s) && NoBlankFirst(SkipBlank(s))
  {
    blank := "";
    if s != "" && IsWhitespace(s[0]) {
      var more := SkipSound(s[1..]);
      blank := [s[0]] + more;
      assert s == [s[0]] + s[1..];
      Associate([s[0]], more, SkipBlank(s[1..]));
    }
  }

  lemma {:induction false} SkipComplete(blank: string, rest: string)
    requires Blank(blank) && NoBlankFirst(rest)
    ensures SkipBlank(blank + rest) == rest
  {
    if blank == "" {
      assert blank + rest == rest;
    } else {
      assert blank[0] in blank && forall c | c in blank[1..] :: c in blank;
      SkipComplete(blank[1..], rest);
      assert (blank + rest)[1..] == blank[1..] + rest;
    }
  }

  // ---------------------------------------------------------------- fields

  /** The pieces of one field: its key and its value with the blanks around them. */
  datatype Member = Member(before: string, key: string, mid: string, gap: string, value: string, after: string)

  ghost predicate Names(m: Member, f: Field) {
    && Blank(m.before) && Blank(m.mid) && Blank(m.gap) && Blank(m.after)
    && Literal(m.key, f.key) && ValueText(m.value, f.value)
  }

  /** A field followed by `rest`. */
  function Written(m: Member, rest: string): string {
    m.before + (m.key + (m.mid + (":" + (m.gap + (m.value + (m.after + rest))))))
  }

  /** The key of a field, up to its colon. */
  lemma KeySound(s: string) returns (before: string, key: string, mid: string)
    requires ParseString(SkipBlank(s)).Some?
    ensures var (text, after) := ParseString(SkipBlank(s)).value;
            Blank(before) && Literal(key, text) && Blank(mid) && s == before + (key + (mid + SkipBlank(after)))
  {
    var (text, after) := ParseString(SkipBlank(s)).value;
    before := SkipSound(s);
    StringExactly(SkipBlank(s), text, after);
    key :| Literal(key, text) && SkipBlank(s) == key + after;
    mid := SkipSound(after);
  }

  /** The value of a field, from behind its colon. */
  lemma ValuePartSound(s: string) returns (gap: string, value: string, after: string)
    requires ParseValue(SkipBlank(s)).Some?
    ensures var (v, end) := ParseValue(SkipBlank(s)).value;
            && Blank(gap) && ValueText(value, v) && Blank(after) && NoBlankFirst(SkipBlank(end))
            && s == gap + (value + (after + SkipBlank(end)))
  {
    gap := SkipSound(s);
    value := ValueSound(SkipBlank(s));
    after := SkipSound(ParseValue(SkipBlank(s)).value.1);
  }

  lemma FieldSound(s: string) returns (m: Member)
    requires ParseField(s).Some?
    ensures var (f, rest) := ParseField(s).value;
            Names(m, f) && s == Written(m, rest) && NoBlankFirst(rest)
  {
    var before, key, mid := KeySound(s);
    var s3 := SkipBlank(ParseString(SkipBlank(s)).value.1);
    var gap, value, after := ValuePartSound(s3[1..]);
    assert s3 == ":" + s3[1..];
    m := Member(before, key, mid, gap, value, after);
  }

  lemma LiteralStart(word: string, text: string, rest: string)
    requires Literal(word, text)
    ensures word + rest != "" && (word + rest)[0] == '"'
  {
  }

  lemma ValueStarts(word: string, v: Value, rest: string)
    requires ValueText(word, v)
    ensures NoBlankFirst(word + rest)
  {
    if v.Number? { assert word[0] in word; }
  }

  lemma FieldComplete(m: Member, f: Field, rest: string)
    requires Names(m, f) && rest != "" && (rest[0] == ',' || rest[0] == '}')
    ensures ParseField(Written(m, rest)) == Some((f, rest))
  {
    var s4 := m.after + rest;
    SkipComplete(m.after, rest);
    assert NoDigitFirst(s4) by { if m.after != "" { assert m.after[0] in m.after; } }
    var s3 := m.value + s4;
    ValueComplete(m.value, f.value, s4);
    ValueStarts(m.value, f.value, s4);
    SkipComplete(m.gap, s3);
    var s2 := ":" + (m.gap + s3);
    assert s2[1..] == m.gap + s3;
    SkipComplete(m.mid, s2);
    LiteralStart(m.key, f.key, m.mid + s2);
    StringExactly(m.key + (m.mid + s2), f.key, m.mid + s2);
    assert ParseString(m.key + (m.mid + s2)) == Some((f.key, m.mid + s2));
    SkipComplete(m.before, m.key + (m.mid + s2));
  }

  ghost predicate NamesAll(members: seq<Member>, fields: seq<Field>) {
    |members| == |fields| && forall i | 0 <= i < |fields| :: Names(members[i], fields[i])
  }

  /** Fields with commas between them, the closing brace, and `rest`. */
  function WrittenAll(members: seq<Member>, rest: string): string
    requires members != []
  {
    if |members| == 1 then Written(members[0], "}" + rest)
    else Written(members[0], "," + WrittenAll(members[1..], rest))
  }

  lemma {:induction false} FieldsSound(s: string) returns (members: seq<Member>, rest: string)
    requires ParseFields(s).Some?
    ensures members != [] && NamesAll(members, ParseFields(s).value) && s == WrittenAll(members, rest)
    decreases |s|
  {
    FieldShrinks(s);
    var m := FieldSound(s);
    var end := ParseField(s).value.1;
    assert end == [end[0]] + end[1..];
    if end[0] == '}' {
      members, rest := [m], end[1..];
    } else {
      var more, after := FieldsSound(end[1..]);
      members, rest := [m] + more, after;
      assert members[1..] == more;
    }
  }

  lemma {:induction false} FieldsComplete(members: seq<Member>, fields: seq<Field>, rest: string)
    requires members != [] && NamesAll(members, fields)
    ensures ParseFields(WrittenAll(members, rest)) == Some(fields)
  {
    if |members| == 1 {
      FieldComplete(members[0], fields[0], "}" + rest);
      assert fields == [fields[0]];
    } else {
      var more := WrittenAll(members[1..], rest);
      FieldsComplete(members[1..], fields[1..], rest);
      FieldComplete(members[0], fields[0], "," + more);
      ParseComma(WrittenAll(members, rest), fields[0], more, fields[1..]);
      assert fields == [fields[0]] + fields[1..];
    }
  }

  // ---------------------------------------------------------------- objects

  /** What follows the opening brace. */
  ghost predicate Members(s: string, fields: seq<Field>) {
    if fields == [] then exists blank, rest :: Blank(blank) && s == blank + ("}" + rest)
    else exists members: seq<Member>, rest ::
           members != [] && NamesAll(members, fields) && s == WrittenAll(members, rest)
  }

  /** A flat object: blanks, an opening brace, the members, a closing brace, and then anything. */
  ghost predicate ObjectText(text: string, fields: seq<Field>) {
    exists blank, inner :: Blank(blank) && text == blank + ("{" + inner) && Members(inner, fields)
  }

  /** What the reader makes of the text behind the opening brace. */
  function ReadInner(inner: string): Option<seq<Field>> {
    var s := SkipBlank(inner);
    if s != "" && s[0] == '}' then Some([]) else ParseFields(s)
  }

  lemma WrittenJoin(m: Member, a: string, b: string)
    ensures Written(m, a) + b == Written(m, a + b)
    ensures a != "" ==> Written(m, a) != "" && Written(m, a)[|Written(m, a)| - 1] == a[|a| - 1]
  {
    var t6 := m.after + a;
    var t5 := m.value + t6;
    var t4 := m.gap + t5;
    var t3 := ":" + t4;
    var t2 := m.mid + t3;
    var t1 := m.key + t2;
    Associate(m.after, a, b);
    Associate(m.value, t6, b);
    Associate(m.gap, t5, b);
    Associate(":", t4, b);
    Associate(m.mid, t3, b);
    Associate(m.key, t2, b);
    Associate(m.before, t1, b);
  }

  /** What follows the closing brace is no part of the members. */
  lemma {:induction false} WrittenAllJoin(members: seq<Member>, a: string, b: string)
    requires members != []
    ensures WrittenAll(members, a) + b == WrittenAll(members, a + b)
    ensures a == "" ==> WrittenAll(members, a) != "" && WrittenAll(members, a)[|WrittenAll(members, a)| - 1] == '}'
  {
    if |members| == 1 {
      WrittenJoin(members[0], "}" + a, b);
      Associate("}", a, b);
    } else {
      WrittenAllJoin(members[1..], a, b);
      WrittenJoin(members[0], "," + WrittenAll(members[1..], a), b);
      Associate(",", WrittenAll(members[1..], a), b);
    }
  }

  lemma SkipTwice(s: string)
    ensures SkipBlank(SkipBlank(s)) == SkipBlank(s)
    ensures ParseFields(SkipBlank(s)) == ParseFields(s)
  {
    var blank := SkipSound(s);
    assert ParseField(SkipBlank(s)) == ParseField(s);
  }

  lemma InnerSound(inner: string)
    requires ReadInner(inner).Some?
    ensures Members(inner, ReadInner(inner).value)
  {
    var blank := SkipSound(inner);
    var s := SkipBlank(inner);
    if s != "" && s[0] == '}' {
      assert s == "}" + s[1..];
    } else {
      SkipTwice(inner);
      var members, rest := FieldsSound(inner);
    }
  }

  lemma InnerComplete(inner: string, fields: seq<Field>)
    requires Members(inner, fields)
    ensures ReadInner(inner) == Some(fields)
  {
    if fields == [] {
      var blank, rest :| Blank(blank) && inner == blank + ("}" + rest);
      SkipComplete(blank, "}" + rest);
    } else {
      var members: seq<Member>, rest :|
        members != [] && NamesAll(members, fields) && inner == WrittenAll(members, rest);
      FieldsComplete(members, fields, rest);
      SkipTwice(inner);
      FirstWritten(members, fields, rest);
    }
  }

  lemma FirstWritten(members: seq<Member>, fields: seq<Field>, rest: string)
    requires members != [] && NamesAll(members, fields)
    ensures var s := SkipBlank(WrittenAll(members, rest));
            s != "" && s[0] == '"'
  {
    var m := members[0];
    var more := if |members| == 1 then "}" + rest else "," + WrittenAll(members[1..], rest);
    var tail := m.mid + (":" + (m.gap + (m.value + (m.after + more))));
    LiteralStart(m.key, fields[0].key, tail);
    SkipComplete(m.before, m.key + tail);
  }

  lemma {:induction false} TrimEndSound(s: string) returns (trail: string)
    ensures s == TrimEnd(s) + trail
  {
    trail := "";
    if s != "" && IsWhitespace(s[|s| - 1]) {
      var more := TrimEndSound(s[..|s| - 1]);
      trail := more + [s[|s| - 1]];
      assert s == s[..|s| - 1] + [s[|s| - 1]];
      Associate(TrimEnd(s), more, [s[|s| - 1]]);
    }
  }

  lemma {:induction false} TrimEndJoin(front: string, rest: string)
    requires front != "" && !IsWhitespace(front[|front| - 1])
    ensures TrimEnd(front + rest) == front + TrimEnd(rest)
  {
    if rest == "" {
      assert front + rest == front;
    } else {
      assert (front + rest)[..|front + rest| - 1] == front + rest[..|rest| - 1];
      if IsWhitespace(rest[|rest| - 1]) { TrimEndJoin(front, rest[..|rest| - 1]); }
    }
  }

  /** Members stay members with more text behind them. */
  lemma MembersGrow(inner: string, fields: seq<Field>, more: string)
    requires Members(inner, fields)
    ensures Members(inner + more, fields)
  {
    if fields == [] {
      var blank, rest :| Blank(blank) && inner == blank + ("}" + rest);
      Associate(blank, "}" + rest, more);
      Associate("}", rest, more);
    } else {
      var members: seq<Member>, rest :|
        members != [] && NamesAll(members, fields) && inner == WrittenAll(members, rest);
      WrittenAllJoin(members, rest, more);
    }
  }

  /** Members split into what ends with their brace and what follows it. */
  lemma MembersCut(inner: string, fields: seq<Field>) returns (front: string, rest: string)
    requires Members(inner, fields)
    ensures inner == front + rest && front != "" && front[|front| - 1] == '}' && Members(front, fields)
  {
    if fields == [] {
      var blank, after :| Blank(blank) && inner == blank + ("}" + after);
      front, rest := blank + ("}" + ""), after;
      assert front == blank + "}";
      Associate(blank, "}", after);
    } else {
      var members: seq<Member>, after :|
        members != [] && NamesAll(members, fields) && inner == WrittenAll(members, after);
      WrittenAllJoin(members, "", after);
      assert "" + after == after;
      front, rest := WrittenAll(members, ""), after;
    }
  }

  lemma TrimmedReads(text: string)
    ensures var s := Trim(text);
            ParseFlatObject(text) == if s == "" || s[0] != '{' then None else ReadInner(s[1..])
  {
  }

  lemma ObjectSound(text: string)
    requires ParseFlatObject(text).Some?
    ensures ObjectText(text, ParseFlatObject(text).value)
  {
    TrimmedReads(text);
    var fields, s := ParseFlatObject(text).value, Trim(text);
    var blank := SkipSound(text);
    var trail := TrimEndSound(SkipBlank(text));
    InnerSound(s[1..]);
    MembersGrow(s[1..], fields, trail);
    BraceApart(text, blank, s, trail);
  }

  lemma BraceApart(text: string, blank: string, s: string, trail: string)
    requires text == blank + (s + trail) && s != "" && s[0] == '{'
    ensures text == blank + ("{" + (s[1..] + trail))
  {
    assert s == "{" + s[1..];
    Associate("{", s[1..], trail);
  }

  lemma ObjectComplete(text: string, fields: seq<Field>)
    requires ObjectText(text, fields)
    ensures ParseFlatObject(text) == Some(fields)
  {
    var blank, inner :| Blank(blank) && text == blank + ("{" + inner) && Members(inner, fields);
    SkipComplete(blank, "{" + inner);
    var front, rest := MembersCut(inner, fields);
    Associate("{", front, rest);
    TrimEndJoin("{" + front, rest);
    Associate("{", front, TrimEnd(rest));
    MembersGrow(front, fields, TrimEnd(rest));
    InnerComplete(front + TrimEnd(rest), fields);
    assert Trim(text)[1..] == front + TrimEnd(rest);
    TrimmedReads(text);
  }

  /** The reader accepts exactly the flat objects of the grammar, and reads each as its own fields: keys
      and strings in any of their spellings, numbers in decimal, blanks around every part, and nothing
      else before the closing brace. */
  lemma ReadsExactly(text: string, fields: seq<Field>)
    ensures ParseFlatObject(text) == Some(fields) <==> ObjectText(text, fields)
  {
    if ParseFlatObject(text) == Some(fields) { ObjectSound(text); }
    if ObjectText(text, fields) { ObjectComplete(text, fields); }
  }
}
