/** The append-only journal: one encoded object per line, read back entry by entry. */
module Journal {
  import opened Sequences
  import opened LittleEndian
  import opened Wrappers
  import opened Json
  import opened JsonText

  datatype JournalEntry = JournalEntry(
    segment: string, attempt: U32, status: string, identity: string, evidence: string)

  /** The first string field of that name. */
  function StringField(fields: seq<Field>, key: string): Option<string> {
    if fields == [] then None
    else if fields[0].key == key && fields[0].value.Text? then Some(fields[0].value.text)
    else StringField(fields[1..], key)
  }

  /** The first number field of that name. */
  function NumberField(fields: seq<Field>, key: string): Option<U64> {
    if fields == [] then None
    else if fields[0].key == key && fields[0].value.Number? then Some(fields[0].value.number)
    else NumberField(fields[1..], key)
  }

  function OrElse<T>(o: Option<T>, fallback: T): T {
    if o.Some? then o.value else fallback
  }

  function EntryOf(fields: seq<Field>): Option<JournalEntry> {
    var segment :- StringField(fields, "segment");
    var status :- StringField(fields, "status");
    var identity :- StringField(fields, "evidence_identity");
    var attempt := OrElse(NumberField(fields, "attempt"), 0);
    if attempt >= 0x1_0000_0000 then None
    else Some(JournalEntry(segment, attempt, status, identity, OrElse(StringField(fields, "evidence"), "")))
  }

  function ParseEntry(line: string): Option<JournalEntry> {
    var fields :- ParseFlatObject(line);
    EntryOf(fields)
  }

  // ---------------------------------------------------------------- lines

  /** Where the first line break is, or the length when there is none. */
  function LineEnd(text: string): (n: nat)
    ensures n <= |text|
  {
    if text == "" || text[0] == '\n' then 0 else 1 + LineEnd(text[1..])
  }

  function StripReturn(line: string): string {
    if line != "" && line[|line| - 1] == '\r' then line[..|line| - 1] else line
  }

  /** The lines of a text; a line break may carry a carriage return, and a final break ends no line. */
  function Lines(text: string): seq<string>
    decreases |text|
  {
    if text == "" then []
    else
      var n := LineEnd(text);
      if n == |text| then [text] else [StripReturn(text[..n])] + Lines(text[n + 1..])
  }

  /** Every entry, in order; one unreadable line refuses the whole journal. */
  function ReadLines(lines: seq<string>): Option<seq<JournalEntry>> {
    if lines == [] then Some([])
    else if Trim(lines[0]) == "" then ReadLines(lines[1..])
    else
      var entry :- ParseEntry(lines[0]);
      var more :- ReadLines(lines[1..]);
      Some([entry] + more)
  }

  /** The file after appending each object on a line of its own. */
  function JournalText(objects: seq<seq<Field>>): string {
    if objects == [] then "" else Encode(objects[0]) + "\n" + JournalText(objects[1..])
  }

  /** The entries of the objects themselves. */
  function Collect(objects: seq<seq<Field>>): Option<seq<JournalEntry>> {
    if objects == [] then Some([])
    else
      var entry :- EntryOf(objects[0]);
      var more :- Collect(objects[1..]);
      Some([entry] + more)
  }

  lemma {:induction false} LineEndAt(line: string, rest: string)
    requires OneLine(line)
    ensures LineEnd(line + "\n" + rest) == |line|
  {
    if line == "" {
      assert (line + "\n" + rest)[0] == '\n';
    } else {
      assert line[0] in line && forall c | c in line[1..] :: c in line;
      LineEndAt(line[1..], rest);
      assert (line + "\n" + rest)[1..] == line[1..] + "\n" + rest;
    }
  }

  lemma FirstLine(fields: seq<Field>, rest: string)
    ensures Lines(Encode(fields) + "\n" + rest) == [Encode(fields)] + Lines(rest)
  {
    var line := Encode(fields);
    var text := line + "\n" + rest;
    EncodedOneLine(fields);
    LineEndAt(line, rest);
    assert text[..|line|] == line && text[|line| + 1..] == rest;
    assert line[|line| - 1] == '}';
  }

  lemma EncodedNotBlank(fields: seq<Field>)
    ensures Trim(Encode(fields)) != ""
  {
    TrimEncoded(fields);
  }

  /** Any sequence of appends reads back as the same sequence of entries. */
  lemma {:induction false} AppendsReadBack(objects: seq<seq<Field>>)
    ensures ReadLines(Lines(JournalText(objects))) == Collect(objects)
  {
    if objects != [] {
      var rest := JournalText(objects[1..]);
      AppendsReadBack(objects[1..]);
      FirstLine(objects[0], rest);
      EncodedNotBlank(objects[0]);
      ObjectRoundTrip(objects[0]);
      assert ([Encode(objects[0])] + Lines(rest))[1..] == Lines(rest);
    }
  }

  lemma JournalAppend(objects: seq<seq<Field>>, o: seq<Field>)
    ensures JournalText(objects + [o]) == JournalText(objects) + (Encode(o) + "\n")
  {
    JournalConcat(objects, [o]);
    assert JournalText([o]) == Encode(o) + "\n" + JournalText([]);
  }

  // ---------------------------------------------------------------- appending to any file

  /** What follows the last line break. */
  function LastLine(text: string): string
    decreases |text|
  {
    var n := LineEnd(text);
    if n == |text| then text else LastLine(text[n + 1..])
  }

  lemma {:induction false} LineEndJoin(a: string, b: string)
    ensures LineEnd(a + b) == if LineEnd(a) < |a| then LineEnd(a) else |a| + LineEnd(b)
  {
    if a == "" {
      assert a + b == b;
    } else {
      assert (a + b)[0] == a[0] && (a + b)[1..] == a[1..] + b;
      if a[0] != '\n' { LineEndJoin(a[1..], b); }
    }
  }

  /** A text whose first line ends keeps that line when more is appended. */
  lemma LinesJoin(text: string, more: string)
    requires LineEnd(text) < |text|
    ensures var n := LineEnd(text);
            && Lines(text) == [StripReturn(text[..n])] + Lines(text[n + 1..])
            && Lines(text + more) == [StripReturn(text[..n])] + Lines(text[n + 1..] + more)
  {
    var n := LineEnd(text);
    LineEndJoin(text, more);
    assert (text + more)[..n] == text[..n] && (text + more)[n + 1..] == text[n + 1..] + more;
  }

  /** A text without a line break takes an appended line onto its own. */
  lemma LinesGlue(text: string, line: string)
    requires LineEnd(text) == |text| && OneLine(line) && line != ""
    ensures Lines(text + (line + "\n")) == [text + line]
  {
    LineEndAt(line, "");
    assert line + "\n" + "" == line + "\n";
    LineEndJoin(text, line + "\n");
    var all, n := text + (line + "\n"), |text + line|;
    assert all[..n] == text + line && all[n + 1..] == "";
    assert (text + line)[n - 1] == line[|line| - 1];
    assert line[|line| - 1] in line;
  }

  lemma {:induction false} BlankSkips(s: string, more: string)
    requires Trim(s) == "" && more != "" && !IsWhitespace(more[0])
    ensures SkipBlank(s + more) == more
  {
    if s == "" {
      assert s + more == more;
    } else if IsWhitespace(s[0]) {
      assert (s + more)[1..] == s[1..] + more;
      BlankSkips(s[1..], more);
    } else {
      TrimEndKeeps(s);
    }
  }

  lemma {:induction false} TrimEndKeeps(s: string)
    requires s != "" && !IsWhitespace(s[0])
    ensures TrimEnd(s) != ""
  {
    if IsWhitespace(s[|s| - 1]) { TrimEndKeeps(s[..|s| - 1]); }
  }

  /** One line reads as at most one entry. */
  lemma OneEntryALine(line: string)
    ensures ReadLines([line]).Some? ==>
              |ReadLines([line]).value| == if Trim(line) == "" then 0 else 1
  {
    assert [line][1..] == [];
  }

  /** A line behind blanks reads as the line. */
  lemma BlankThenLine(text: string, line: string)
    requires Trim(text) == "" && line != "" && !IsWhitespace(line[0])
    ensures ReadLines([text + line]) == ReadLines([line])
  {
    BlankSkips(text, line);
    assert SkipBlank(line) == line;
    assert [text + line][1..] == [] && [line][1..] == [];
  }

  lemma EncodedReads(fields: seq<Field>)
    ensures ReadLines([Encode(fields)]) == match EntryOf(fields) case None => None case Some(e) => Some([e])
  {
    EncodedNotBlank(fields);
    ObjectRoundTrip(fields);
    ReadOnly(Encode(fields));
  }

  /** A text of one line that is not blank reads as that line does. */
  lemma ReadOnly(line: string)
    requires Trim(line) != ""
    ensures ReadLines([line]) == match ParseEntry(line) case None => None case Some(e) => Some([e])
  {
    ReadFirst(line, []);
    assert [line] + [] == [line];
    if ParseEntry(line).Some? { assert [ParseEntry(line).value] + [] == [ParseEntry(line).value]; }
  }

  lemma EncodedStart(fields: seq<Field>)
    ensures Encode(fields) != "" && !IsWhitespace(Encode(fields)[0])
  {
  }

  lemma GlueLine(text: string, line: string, entries: seq<JournalEntry>, e: JournalEntry)
    requires LineEnd(text) == |text| && ReadLines(Lines(text)) == Some(entries)
    requires line != "" && !IsWhitespace(line[0]) && OneLine(line) && ReadLines([line]) == Some([e])
    ensures ReadLines(Lines(text + (line + "\n"))) == Some(entries + [e]) <==> Trim(text) == ""
  {
    LinesGlue(text, line);
    assert Lines(text) == if text == "" then [] else [text];
    OneEntryALine(text);
    OneEntryALine(text + line);
    if Trim(text) == "" {
      BlankThenLine(text, line);
      assert entries + [e] == [e];
    }
  }

  lemma ReadFirst(line: string, more: seq<string>)
    ensures ReadLines([line] + more)
            == if Trim(line) == "" then ReadLines(more)
               else match ParseEntry(line)
                    case None => None
                    case Some(entry) => (match ReadLines(more)
                                         case None => None
                                         case Some(rest) => Some([entry] + rest))
  {
    assert ([line] + more)[1..] == more;
  }

  /** A common first line does not decide whether what follows gained one entry. */
  lemma FirstLineApart(
    first: string, before: seq<string>, after: seq<string>, entries: seq<JournalEntry>, e: JournalEntry)
    requires ReadLines([first] + before) == Some(entries)
    ensures ReadLines(before).Some?
    ensures ReadLines([first] + after) == Some(entries + [e])
            <==> ReadLines(after) == Some(ReadLines(before).value + [e])
  {
    ReadFirst(first, before);
    ReadFirst(first, after);
    if Trim(first) != "" {
      var h, tail := ParseEntry(first).value, ReadLines(before).value;
      assert entries + [e] == [h] + (tail + [e]);
      HeadCancels(h, ReadLines(after), tail + [e]);
    }
  }

  lemma {:induction false} LineReadsExactly(text: string, line: string, entries: seq<JournalEntry>, e: JournalEntry)
    requires ReadLines(Lines(text)) == Some(entries)
    requires line != "" && !IsWhitespace(line[0]) && OneLine(line) && ReadLines([line]) == Some([e])
    ensures ReadLines(Lines(text + (line + "\n"))) == Some(entries + [e]) <==> Trim(LastLine(text)) == ""
    decreases |text|
  {
    var n := LineEnd(text);
    if n == |text| {
      GlueLine(text, line, entries, e);
    } else {
      var first, rest, more := StripReturn(text[..n]), text[n + 1..], line + "\n";
      LinesJoin(text, more);
      FirstLineApart(first, Lines(rest), Lines(rest + more), entries, e);
      LineReadsExactly(rest, line, ReadLines(Lines(rest)).value, e);
    }
  }

  /** An entry appended to any readable file reads back behind the others if and only if what follows
      the last line break is blank, as it is whenever the last append ended its line. Otherwise the
      new entry shares a line with the last one and does not add an entry. */
  lemma AppendReadsExactly(text: string, fields: seq<Field>, entries: seq<JournalEntry>, e: JournalEntry)
    requires ReadLines(Lines(text)) == Some(entries) && EntryOf(fields) == Some(e)
    ensures ReadLines(Lines(text + (Encode(fields) + "\n"))) == Some(entries + [e]) <==> Trim(LastLine(text)) == ""
  {
    EncodedOneLine(fields);
    EncodedStart(fields);
    EncodedReads(fields);
    LineReadsExactly(text, Encode(fields), entries, e);
  }

  /** A file that lost only its last line break: it still reads, and the next entry does not. */
  lemma GluedEntryLost(f: seq<Field>, g: seq<Field>)
    requires EntryOf(f).Some? && EntryOf(g).Some?
    ensures ReadLines(Lines(Encode(f))) == Some([EntryOf(f).value])
    ensures ReadLines(Lines(Encode(f) + (Encode(g) + "\n"))) != Some([EntryOf(f).value] + [EntryOf(g).value])
  {
    var text := Encode(f);
    EncodedOneLine(f);
    LineEndAt(text, "");
    LineEndJoin(text, "\n" + "");
    assert text + "\n" + "" == text + ("\n" + "");
    EncodedStart(f);
    EncodedReads(f);
    EncodedNotBlank(f);
    AppendReadsExactly(text, g, [EntryOf(f).value], EntryOf(g).value);
  }

  lemma HeadCancels(h: JournalEntry, read: Option<seq<JournalEntry>>, tail: seq<JournalEntry>)
    ensures read.Some? ==> ([h] + read.value == [h] + tail <==> read.value == tail)
  {
    if read.Some? && [h] + read.value == [h] + tail {
      assert ([h] + read.value)[1..] == read.value && ([h] + tail)[1..] == tail;
    }
  }

  // ---------------------------------------------------------------- appending to a written file

  /** Entries are only ever added at the end of the file. */
  lemma TextGrows(before: seq<seq<Field>>, after: seq<seq<Field>>)
    requires before <= after
    ensures JournalText(before) <= JournalText(after)
  {
    var added := after[|before|..];
    assert before + added == after;
    JournalConcat(before, added);
  }

  lemma {:induction false} JournalConcat(a: seq<seq<Field>>, b: seq<seq<Field>>)
    ensures JournalText(a + b) == JournalText(a) + JournalText(b)
  {
    if a == [] {
      assert a + b == b;
    } else {
      var rest := a[1..];
      FirstOf(a, b);
      JournalConcat(rest, b);
      Associate(Encode(a[0]) + "\n", JournalText(rest), JournalText(b));
    }
  }

  lemma FirstOf(a: seq<seq<Field>>, b: seq<seq<Field>>)
    requires a != []
    ensures JournalText(a + b) == Encode(a[0]) + "\n" + JournalText(a[1..] + b)
  {
    assert (a + b)[0] == a[0] && (a + b)[1..] == a[1..] + b;
  }

  lemma {:induction false} CollectAppend(objects: seq<seq<Field>>, o: seq<Field>)
    requires Collect(objects).Some? && EntryOf(o).Some?
    ensures Collect(objects + [o]) == Some(Collect(objects).value + [EntryOf(o).value])
  {
    if objects == [] {
      assert objects + [o] == [o];
      assert [o][1..] == [] && [EntryOf(o).value] + [] == [] + [EntryOf(o).value];
    } else {
      CollectAppend(objects[1..], o);
      assert (objects + [o])[1..] == objects[1..] + [o];
      var first, more := EntryOf(objects[0]).value, Collect(objects[1..]).value;
      assert [first] + (more + [EntryOf(o).value]) == [first] + more + [EntryOf(o).value];
    }
  }

  /** Two fields of one name over the same kind of value. */
  predicate Alike(f: Field, g: Field) {
    f.key == g.key && (f.value.Text? <==> g.value.Text?)
  }

  predicate NoneLike(fields: seq<Field>, f: Field) {
    forall j | 0 <= j < |fields| :: !Alike(fields[j], f)
  }

  predicate FirstAt(fields: seq<Field>, f: Field, i: int) {
    0 <= i < |fields| && fields[i] == f && forall j | 0 <= j < i :: !Alike(fields[j], f)
  }

  /** `f` is the first field of its name and kind. */
  predicate First(fields: seq<Field>, f: Field) {
    exists i | 0 <= i < |fields| :: FirstAt(fields, f, i)
  }

  lemma FirstShifts(fields: seq<Field>, f: Field)
    requires fields != [] && !Alike(fields[0], f)
    ensures First(fields, f) <==> First(fields[1..], f)
    ensures NoneLike(fields, f) <==> NoneLike(fields[1..], f)
  {
    var tail := fields[1..];
    assert fields == [fields[0]] + tail;
    if i :| 0 <= i < |fields| && FirstAt(fields, f, i) {
      assert FirstAt(tail, f, i - 1) by { assert forall j | 0 <= j < i - 1 :: tail[j] == fields[j + 1]; }
    }
    if i :| 0 <= i < |tail| && FirstAt(tail, f, i) { assert FirstAt(fields, f, i + 1); }
    if NoneLike(fields, f) { assert forall j | 0 <= j < |tail| :: tail[j] == fields[j + 1]; }
  }

  /** A lookup finds a value exactly when it is that of the first field of its name and kind, and nothing
      exactly when there is no such field. */
  lemma {:induction false} FieldFound(fields: seq<Field>, f: Field)
    ensures match f.value
            case Text(text) =>
              && (StringField(fields, f.key) == Some(text) <==> First(fields, f))
              && (StringField(fields, f.key) == None <==> NoneLike(fields, f))
            case Number(number) =>
              && (NumberField(fields, f.key) == Some(number) <==> First(fields, f))
              && (NumberField(fields, f.key) == None <==> NoneLike(fields, f))
  {
    if fields != [] {
      if Alike(fields[0], f) {
        if fields[0] == f { assert FirstAt(fields, f, 0); }
      } else {
        FieldFound(fields[1..], f);
        FirstShifts(fields, f);
      }
    }
  }

  /** An object reads as an entry exactly when it has a segment, a status and an identity; the first of
      each name counts, a missing attempt is 0 and missing evidence is empty. */
  lemma EntryOfExactly(fields: seq<Field>, e: JournalEntry)
    ensures EntryOf(fields) == Some(e)
            <==> && First(fields, Field("segment", Text(e.segment))) && First(fields, Field("status", Text(e.status)))
                 && First(fields, Field("evidence_identity", Text(e.identity)))
                 && (var f := Field("attempt", Number(e.attempt));
                     First(fields, f) || (NoneLike(fields, f) && e.attempt == 0))
                 && (var f := Field("evidence", Text(e.evidence));
                     First(fields, f) || (NoneLike(fields, f) && e.evidence == ""))
  {
    FieldFound(fields, Field("segment", Text(e.segment)));
    FieldFound(fields, Field("status", Text(e.status)));
    FieldFound(fields, Field("evidence_identity", Text(e.identity)));
    FieldFound(fields, Field("attempt", Number(e.attempt)));
    FieldFound(fields, Field("evidence", Text(e.evidence)));
  }

  /** A line ends at a line feed, with or without a carriage return before it. */
  lemma LineApart(line: string, returned: bool, rest: string)
    requires OneLine(line)
    ensures Lines(line + (if returned then "\r\n" else "\n") + rest) == [line] + Lines(rest)
  {
    var kept := if returned then line + "\r" else line;
    var text := line + (if returned then "\r\n" else "\n") + rest;
    assert text == kept + ("\n" + rest);
    LineEndJoin(kept, "\n" + rest);
    if returned { LineEndJoin(line, "\r"); }
    NoBreak(line);
    assert text[..|kept|] == kept && text[|kept| + 1..] == rest;
    assert line != "" ==> line[|line| - 1] in line;
  }

  lemma {:induction false} NoBreak(line: string)
    requires OneLine(line)
    ensures LineEnd(line) == |line|
  {
    if line != "" {
      assert line[0] in line && forall c | c in line[1..] :: c in line;
      NoBreak(line[1..]);
    }
  }

  // ---------------------------------------------------------------- lookups

  /** How many entries a segment has. */
  function Attempts(entries: seq<JournalEntry>, segment: string): nat {
    if entries == [] then 0
    else Attempts(entries[..|entries| - 1], segment) + if entries[|entries| - 1].segment == segment then 1 else 0
  }

  /** The most recent entry of a segment. */
  function LastEntry(entries: seq<JournalEntry>, segment: string): Option<JournalEntry> {
    if entries == [] then None
    else if entries[|entries| - 1].segment == segment then Some(entries[|entries| - 1])
    else LastEntry(entries[..|entries| - 1], segment)
  }

  /** Entry `i` is of the segment and no later entry is. */
  predicate Latest(entries: seq<JournalEntry>, segment: string, i: int) {
    && 0 <= i < |entries| && entries[i].segment == segment
    && forall j | i < j < |entries| :: entries[j].segment != segment
  }

  /** The last entry of a segment is the one that no later entry of the segment follows; there is none
      exactly when the segment has no attempt. */
  lemma {:induction false} LastEntryIndex(entries: seq<JournalEntry>, segment: string)
    ensures match LastEntry(entries, segment)
            case None => forall i | 0 <= i < |entries| :: entries[i].segment != segment
            case Some(e) => exists i :: Latest(entries, segment, i) && entries[i] == e
    ensures LastEntry(entries, segment).Some? <==> Attempts(entries, segment) > 0
  {
    if entries != [] {
      var last := |entries| - 1;
      var init := entries[..last];
      LastEntryIndex(init, segment);
      if entries[last].segment == segment {
        assert Latest(entries, segment, last);
      } else if LastEntry(init, segment).Some? {
        var i :| Latest(init, segment, i) && init[i] == LastEntry(init, segment).value;
        assert Latest(entries, segment, i) && entries[i] == init[i];
      }
    }
  }

  /** The attempts of a segment are as many as the entries of the journal that name it. */
  lemma {:induction false} AttemptsCounted(entries: seq<JournalEntry>, segment: string)
    ensures Attempts(entries, segment) == |Mentions(entries, segment)|
  {
    if entries != [] {
      AttemptsCounted(entries[..|entries| - 1], segment);
      MentionsLast(entries, segment);
    }
  }

  /** Where the journal names a segment. */
  function Mentions(entries: seq<JournalEntry>, segment: string): set<int> {
    set i | 0 <= i < |entries| && entries[i].segment == segment
  }

  lemma MentionsLast(entries: seq<JournalEntry>, segment: string)
    requires entries != []
    ensures var last := |entries| - 1;
            var before := Mentions(entries[..last], segment);
            last !in before
            && Mentions(entries, segment) == if entries[last].segment == segment then before + {last} else before
  {
  }

  // ---------------------------------------------------------------- the file

  /** One campaign record on disk; the file only ever grows. */
  class RunRecord {
    var journal: string

    constructor (journal: string)
      ensures this.journal == journal
    {
      this.journal := journal;
    }

    method AppendJournal(entry: Object)
      requires entry.Valid()
      modifies this
      ensures journal == old(journal) + (Encode(entry.fields) + "\n")
    {
      var line := entry.Render();
      journal := journal + (line + "\n");
    }

    /** What the file reads back as, whoever wrote it. */
    ghost function Held(): Option<seq<JournalEntry>>
      reads this
    {
      ReadLines(Lines(journal))
    }

    method Entries() returns (entries: Option<seq<JournalEntry>>)
      ensures entries == Held()
    {
      var lines := Lines(journal);
      var read: seq<JournalEntry> := [];
      Gathered([], ReadLines(lines));
      for k := 0 to |lines|
        invariant Gather(read, ReadLines(lines[k..])) == ReadLines(lines)
      {
        assert lines[k..][1..] == lines[k + 1..];
        if Trim(lines[k]) != "" {
          var fields := ReadFlatObject(lines[k]);
          if fields == None { return None; }
          var entry := EntryOf(fields.value);
          if entry == None { return None; }
          GatherSnoc(read, entry.value, ReadLines(lines[k + 1..]));
          read := read + [entry.value];
        }
      }
      assert read + [] == read;
      return Some(read);
    }

    /** How many attempts the record holds for a segment, or nothing when it cannot be read or counted. */
    method AttemptsFor(segment: string) returns (attempts: Option<U32>)
      ensures attempts.Some? <==> Held().Some? && Attempts(Held().value, segment) < 0x1_0000_0000
      ensures attempts.Some? ==> attempts.value == Attempts(Held().value, segment)
    {
      var entries := Entries();
      if entries == None { return None; }
      var count := CountAttempts(entries.value, segment);
      return if count < 0x1_0000_0000 then Some(count) else None;
    }

    /** The most recent attempt recorded for a segment. */
    method LastEntryFor(segment: string) returns (prior: Option<Option<JournalEntry>>)
      ensures prior == match Held()
                       case None => None
                       case Some(entries) => Some(LastEntry(entries, segment))
    {
      var entries := Entries();
      if entries == None { return None; }
      var last := FindLast(entries.value, segment);
      return Some(last);
    }
  }

  method CountAttempts(entries: seq<JournalEntry>, segment: string) returns (count: nat)
    ensures count == Attempts(entries, segment)
  {
    count := 0;
    for k := 0 to |entries|
      invariant count == Attempts(entries[..k], segment)
    {
      assert entries[..k + 1][..k] == entries[..k];
      if entries[k].segment == segment { count := count + 1; }
    }
    assert entries[..|entries|] == entries;
  }

  /** The last entry of a segment, searched from the end. */
  method FindLast(entries: seq<JournalEntry>, segment: string) returns (last: Option<JournalEntry>)
    ensures last == LastEntry(entries, segment)
  {
    assert entries[..|entries|] == entries;
    for k := |entries| downto 0
      invariant LastEntry(entries, segment) == LastEntry(entries[..k], segment)
    {
      assert entries[..k + 1][..k] == entries[..k];
      if entries[k].segment == segment { return Some(entries[k]); }
    }
    return None;
  }

  function Gather(read: seq<JournalEntry>, r: Option<seq<JournalEntry>>): Option<seq<JournalEntry>> {
    match r
    case None => None
    case Some(more) => Some(read + more)
  }

  lemma Gathered(read: seq<JournalEntry>, r: Option<seq<JournalEntry>>)
    requires read == []
    ensures Gather(read, r) == r
  {
    if r.Some? { assert read + r.value == r.value; }
  }

  lemma GatherSnoc(read: seq<JournalEntry>, e: JournalEntry, r: Option<seq<JournalEntry>>)
    ensures Gather(read + [e], r) == Gather(read, Gather([e], r))
  {
    if r.Some? { assert read + [e] + r.value == read + ([e] + r.value); }
  }
}
