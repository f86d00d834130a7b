/** Regions of identifier/length/value entries: the metadata region of a frame and the
    capability region of a handshake payload share this layout. */
module EntryRegion {
  import opened Sequences
  import opened LittleEndian
  import opened Wrappers

  datatype Entry = Entry(identifier: U16, value: seq<Byte>)

  /** The length field an entry is written with; it saturates at the field width. */
  function ValueLength(value: seq<Byte>): U16 {
    if |value| < 0x1_0000 then |value| else 0xFFFF
  }

  function EntryBytes(e: Entry): seq<Byte> {
    Le16(e.identifier) + Le16(ValueLength(e.value)) + e.value
  }

  /** Writes entries one after another. */
  function Print(entries: seq<Entry>): seq<Byte> {
    if entries == [] then [] else EntryBytes(entries[0]) + Print(entries[1..])
  }

  /** Reads entries that must fill the region exactly. */
  function Parse(region: seq<Byte>): Option<seq<Entry>>
    decreases |region|
  {
    if region == [] then Some([])
    else if |region| < 4 then None
    else
      var length := 4 + U16At(region, 2);
      if length > |region| then None
      else
        match Parse(region[length..])
        case None => None
        case Some(rest) => Some([Entry(U16At(region, 0), region[4..length])] + rest)
  }

  /** Every value fits its length field. */
  predicate Representable(entries: seq<Entry>) {
    forall i | 0 <= i < |entries| :: |entries[i].value| < 0x1_0000
  }

  predicate StrictlyAscending(entries: seq<Entry>) {
    forall i, j | 0 <= i < j < |entries| :: entries[i].identifier < entries[j].identifier
  }

  /** No identifier lies in the required range. */
  predicate AllOptional(entries: seq<Entry>) {
    forall i | 0 <= i < |entries| :: entries[i].identifier < 0x8000
  }

  // ---------------------------------------------------------------- the two directions

  /** The entry at the front of a region, written again, is the front of the region. */
  lemma ReadEntry(region: seq<Byte>)
    requires |region| >= 4 && 4 + U16At(region, 2) <= |region|
    ensures var length := 4 + U16At(region, 2);
            EntryBytes(Entry(U16At(region, 0), region[4..length])) == region[..length]
  {
    var length := 4 + U16At(region, 2);
    FieldBytes(region, 0);
    FieldBytes(region, 2);
    assert ValueLength(region[4..length]) == U16At(region, 2);
    assert region[..length] == region[0..2] + region[2..4] + region[4..length];
  }

  /** An entry is its identifier, its length up to 65535, and its value. */
  lemma EntryLayout(e: Entry)
    ensures var bytes := EntryBytes(e);
            && |bytes| == 4 + |e.value| && U16At(bytes, 0) == e.identifier
            && U16At(bytes, 2) == (if |e.value| <= 65_535 then |e.value| else 65_535)
            && bytes[4..] == e.value
  {
    var bytes := EntryBytes(e);
    assert bytes[0..2] == Le16(e.identifier) && bytes[2..4] == Le16(ValueLength(e.value));
    Field16(bytes, 0, e.identifier);
    Field16(bytes, 2, ValueLength(e.value));
  }

  lemma PrintedEntry(e: Entry, rest: seq<Byte>)
    requires |e.value| < 0x1_0000
    ensures var r := EntryBytes(e) + rest;
            && |r| >= 4 && U16At(r, 0) == e.identifier && U16At(r, 2) == |e.value|
            && 4 + |e.value| <= |r| && r[4..4 + |e.value|] == e.value && r[4 + |e.value|..] == rest
  {
    var r := EntryBytes(e) + rest;
    assert r[0..2] == Le16(e.identifier);
    assert r[2..4] == Le16(ValueLength(e.value));
    Field16(r, 0, e.identifier);
    Field16(r, 2, ValueLength(e.value));
  }

  /** Reading what was printed gives the entries back, in order. */
  lemma {:induction false} ParsePrint(entries: seq<Entry>)
    requires Representable(entries)
    ensures Parse(Print(entries)) == Some(entries)
  {
    if entries != [] {
      ParsePrint(entries[1..]);
      PrintedEntry(entries[0], Print(entries[1..]));
      assert entries == [entries[0]] + entries[1..];
    }
  }

  /** A region that parses is the printed form of its entries: no two regions read alike. */
  lemma {:induction false} PrintParse(region: seq<Byte>)
    requires Parse(region).Some?
    ensures Print(Parse(region).value) == region
    ensures Representable(Parse(region).value)
    decreases |region|
  {
    if region != [] {
      var length := 4 + U16At(region, 2);
      var rest := Parse(region[length..]).value;
      var e := Entry(U16At(region, 0), region[4..length]);
      PrintParse(region[length..]);
      assert Parse(region).value == [e] + rest;
      assert ([e] + rest)[1..] == rest;
      ReadEntry(region);
      assert region == region[..length] + region[length..];
    }
  }

  lemma {:induction false} ParseSnoc(region: seq<Byte>, entries: seq<Entry>, rest: seq<Byte>)
    requires Representable(entries) && region == Print(entries) + rest
    ensures Parse(region) == match Parse(rest) case None => None case Some(more) => Some(entries + more)
    decreases |entries|
  {
    if entries == [] {
      assert region == rest;
      if Parse(rest).Some? { assert [] + Parse(rest).value == Parse(rest).value; }
    } else {
      var tail := Print(entries[1..]) + rest;
      ParseSnoc(tail, entries[1..], rest);
      Associate(EntryBytes(entries[0]), Print(entries[1..]), rest);
      PrintedEntry(entries[0], tail);
      assert entries == [entries[0]] + entries[1..];
      if Parse(rest).Some? { Associate([entries[0]], entries[1..], Parse(rest).value); }
    }
  }

  lemma {:induction false} PrintAppend(a: seq<Entry>, b: seq<Entry>)
    ensures Print(a + b) == Print(a) + Print(b)
  {
    if a == [] {
      assert a + b == b;
    } else {
      PrintAppend(a[1..], b);
      assert (a + b)[1..] == a[1..] + b;
      Associate(EntryBytes(a[0]), Print(a[1..]), Print(b));
    }
  }

  lemma PrintSnoc(region: seq<Byte>, entries: seq<Entry>, rest: seq<Byte>, e: Entry, length: nat)
    requires region == Print(entries) + rest && length <= |rest| && EntryBytes(e) == rest[..length]
    ensures region == Print(entries + [e]) + rest[length..]
  {
    PrintAppend(entries, [e]);
    assert Print([e]) == rest[..length] by { assert EntryBytes(e) + Print([]) == EntryBytes(e); }
    Associate(Print(entries), rest[..length], rest[length..]);
    assert rest == rest[..length] + rest[length..];
  }

  /** `entries` are what has been read of `region`, and `rest` is what is left. */
  predicate Splits(region: seq<Byte>, entries: seq<Entry>, rest: seq<Byte>) {
    Representable(entries) && region == Print(entries) + rest
  }

  lemma PrintNext(region: seq<Byte>, entries: seq<Entry>, rest: seq<Byte>)
    requires Splits(region, entries, rest) && |rest| >= 4 && 4 + U16At(rest, 2) <= |rest|
    ensures var length := 4 + U16At(rest, 2);
            Splits(region, entries + [Entry(U16At(rest, 0), rest[4..length])], rest[length..])
  {
    var length := 4 + U16At(rest, 2);
    ReadEntry(rest);
    PrintSnoc(region, entries, rest, Entry(U16At(rest, 0), rest[4..length]), length);
  }

  /** A tail that holds no whole entry refuses the region. */
  lemma ParseStops(region: seq<Byte>, entries: seq<Entry>, rest: seq<Byte>)
    requires Splits(region, entries, rest)
    requires rest != [] && (|rest| < 4 || 4 + U16At(rest, 2) > |rest|)
    ensures Parse(region) == None
  {
    ParseSnoc(region, entries, rest);
  }

  lemma ParseEnds(region: seq<Byte>, entries: seq<Entry>)
    requires Splits(region, entries, [])
    ensures Parse(region) == Some(entries)
  {
    ParseSnoc(region, entries, []);
    assert entries + [] == entries;
  }

  // ---------------------------------------------------------------- the loops

  /** The region parser: consumes entries off the front until the region is used up. */
  method ParseLoop(region: seq<Byte>) returns (result: Option<seq<Entry>>)
    ensures result == Parse(region)
  {
    var entries: seq<Entry> := [];
    var rest := region;
    while rest != []
      invariant Splits(region, entries, rest)
      decreases |rest|
    {
      if |rest| < 4 || 4 + U16At(rest, 2) > |rest| {
        ParseStops(region, entries, rest);
        return None;
      }
      var length := 4 + U16At(rest, 2);
      PrintNext(region, entries, rest);
      entries := entries + [Entry(U16At(rest, 0), rest[4..length])];
      rest := rest[length..];
    }
    ParseEnds(region, entries);
    return Some(entries);
  }

  /** The order check of a handshake region, which compares each entry with the one before it. */
  method CheckAscending(entries: seq<Entry>) returns (ok: bool)
    ensures ok <==> StrictlyAscending(entries)
  {
    var previous: Option<U16> := None;
    for k := 0 to |entries|
      invariant previous == if k == 0 then None else Some(entries[k - 1].identifier)
      invariant StrictlyAscending(entries[..k])
    {
      if previous.Some? && entries[k].identifier <= previous.value {
        assert !StrictlyAscending(entries) by { assert entries[k - 1].identifier >= entries[k].identifier; }
        return false;
      }
      assert forall i | 0 <= i < k :: entries[..k][i].identifier <= entries[k - 1].identifier;
      previous := Some(entries[k].identifier);
    }
    assert entries[..|entries|] == entries;
    return true;
  }

  /** The order check of a metadata region, which also refuses the required range. */
  method CheckMetadataOrder(entries: seq<Entry>) returns (ok: bool)
    ensures ok <==> StrictlyAscending(entries) && AllOptional(entries)
  {
    var previous: Option<U16> := None;
    for k := 0 to |entries|
      invariant previous == if k == 0 then None else Some(entries[k - 1].identifier)
      invariant StrictlyAscending(entries[..k]) && AllOptional(entries[..k])
    {
      if previous.Some? && entries[k].identifier <= previous.value {
        assert !StrictlyAscending(entries) by { assert entries[k - 1].identifier >= entries[k].identifier; }
        return false;
      }
      if entries[k].identifier >= 0x8000 { return false; }
      assert forall i | 0 <= i < k :: entries[..k][i].identifier <= entries[k - 1].identifier;
      previous := Some(entries[k].identifier);
    }
    assert entries[..|entries|] == entries;
    return true;
  }
}
