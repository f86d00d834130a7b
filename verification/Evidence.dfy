/** Evidence files: each executed attempt of a record has a file of its own, so a reused result names
    the file of the one pass it stands for. */
module Evidence {
  import opened LittleEndian
  import opened Wrappers
  import opened Json
  import opened Journal
  import opened Campaign

  // ---------------------------------------------------------------- file names

  lemma PadTwoValue(n: nat)
    ensures AllDigits(PadTwo(n)) && DecimalValue(PadTwo(n)) == n && |PadTwo(n)| >= 2
  {
    DecimalDigits(n);
    if n < 10 {
      var s := "0" + Decimal(n);
      assert Decimal(n) == [Digit(n)];
      assert s[..1] == "0" && s[..|s| - 1] == "0";
      assert DecimalValue("0") == 0 by { assert "0"[..0] == "" && DecimalValue("") == 0; }
    }
  }

  /** A reference names the directory, the segment, and the attempt in at least two decimal digits. */
  lemma ReferenceNames(segment: string, attempt: U32)
    ensures exists digits ::
              && EvidenceReference(segment, attempt) == "segments/" + segment + "-" + digits + ".txt"
              && |digits| >= 2 && AllDigits(digits) && DecimalValue(digits) == attempt
  {
    PadTwoValue(attempt);
  }

  /** The note of a reused result ends in the number of the attempt it stands for. */
  lemma NoteNames(attempt: U32)
    ensures exists digits ::
              && ReusedNote(attempt) == "reused the result recorded by attempt " + digits
              && AllDigits(digits) && DecimalValue(digits) == attempt
  {
    DecimalDigits(attempt);
  }

  /** A name splits in one way at the dash before its last run of digits. */
  lemma LastDash(a: string, x: string, b: string, y: string)
    requires AllDigits(x) && AllDigits(y) && a + "-" + x == b + "-" + y
    ensures a == b && x == y
  {
    var s := a + "-" + x;
    if |x| < |y| { DashInside(a, x, b, y); }
    if |y| < |x| { DashInside(b, y, a, x); }
    assert a == s[..|a|] && b == s[..|b|] && x == s[|a| + 1..] && y == s[|b| + 1..];
  }

  /** Split behind a later dash, the longer rest holds that dash. */
  lemma DashInside(a: string, x: string, b: string, y: string)
    requires a + "-" + x == b + "-" + y && |x| < |y|
    ensures '-' in y
  {
    var s := a + "-" + x;
    assert s[|a|] == '-';
    assert s[|a|] == y[|a| - |b| - 1];
  }

  /** No two attempts share a file name, whatever the segments are called. */
  lemma ReferenceInjective(a: string, i: U32, b: string, j: U32)
    requires EvidenceReference(a, i) == EvidenceReference(b, j)
    ensures a == b && i == j
  {
    ReferenceBody(a, i);
    ReferenceBody(b, j);
    PadTwoValue(i);
    PadTwoValue(j);
    LastDash(a, PadTwo(i), b, PadTwo(j));
  }

  lemma ReferenceBody(a: string, i: U32)
    ensures var s := EvidenceReference(a, i);
            |s| >= 13 && s[9..|s| - 4] == a + "-" + PadTwo(i)
  {
  }

  // ---------------------------------------------------------------- a record's files

  /** Every executed attempt names the file of its own segment and number. */
  predicate OwnFiles(entries: seq<JournalEntry>) {
    forall i | 0 <= i < |entries| && entries[i].status != "cached" ::
      entries[i].evidence == EvidenceReference(entries[i].segment, entries[i].attempt)
  }

  lemma OwnFilesStep(
    entries: seq<JournalEntry>, c: Campaign, id: string, clock: Option<string>, run: Option<Outcome>)
    requires OwnFiles(entries) && SegmentStep(entries, c, id, clock, run).Some?
    ensures OwnFiles(entries + [EntryFor(c, SegmentStep(entries, c, id, clock, run).value.0)])
  {
    StatusNames(SegmentStep(entries, c, id, clock, run).value.0.status);
  }

  lemma {:induction false} OwnFilesRun(
    objects: seq<seq<Field>>, entries: seq<JournalEntry>, c: Campaign,
    clock: seq<Option<string>>, runs: seq<Option<Outcome>>, n: nat)
    requires n <= |c.segments| == |clock| == |runs| && OwnFiles(entries)
    ensures OwnFiles(RunSegments(objects, entries, c, clock, runs, n).entries)
  {
    if n > 0 {
      OwnFilesRun(objects, entries, c, clock, runs, n - 1);
      OwnFilesAdvance(RunSegments(objects, entries, c, clock, runs, n - 1), c, c.segments[n - 1], clock[n - 1],
                      runs[n - 1]);
    }
  }

  lemma OwnFilesAdvance(r: Run, c: Campaign, id: string, clock: Option<string>, run: Option<Outcome>)
    requires OwnFiles(r.entries)
    ensures OwnFiles(Advance(r, c, id, clock, run).entries)
  {
    if r.ok && SegmentStep(r.entries, c, id, clock, run).Some? { OwnFilesStep(r.entries, c, id, clock, run); }
  }

  lemma {:induction false} OwnFilesAll(all: seq<Campaigning>)
    requires forall i | 0 <= i < |all| :: Possible(all[i])
    ensures OwnFiles(AfterAll(all).entries)
  {
    if all != [] {
      OwnFilesAll(all[..|all| - 1]);
      var before, x := AfterAll(all[..|all| - 1]), all[|all| - 1];
      assert Possible(x);
      OwnFilesRun(before.objects, before.entries, x.c, x.clock, x.runs, |x.c.segments|);
    }
  }

  lemma {:induction false} AttemptsGrow(entries: seq<JournalEntry>, segment: string, n: nat)
    requires n <= |entries|
    ensures Attempts(entries[..n], segment) <= Attempts(entries, segment)
  {
    if n < |entries| {
      var init := entries[..|entries| - 1];
      AttemptsGrow(init, segment, n);
      assert init[..n] == entries[..n];
    } else {
      assert entries[..n] == entries;
    }
  }

  /** Two entries of one segment have different numbers. */
  lemma NumbersDiffer(entries: seq<JournalEntry>, i: nat, j: nat)
    requires Numbered(entries) && i < j < |entries| && entries[i].segment == entries[j].segment
    ensures entries[i].attempt < entries[j].attempt
  {
    var upTo := entries[..i + 1];
    assert upTo[..i] == entries[..i] && upTo[i] == entries[i];
    AttemptsGrow(entries[..j], entries[i].segment, i + 1);
    assert entries[..j][..i + 1] == upTo;
  }

  /** Over every sequence of campaigns on one record, no two executed attempts name one evidence file. */
  lemma FilesDiffer(all: seq<Campaigning>, i: nat, j: nat)
    requires forall k | 0 <= k < |all| :: Possible(all[k])
    requires i < j < |AfterAll(all).entries|
    requires AfterAll(all).entries[i].status != "cached" && AfterAll(all).entries[j].status != "cached"
    ensures AfterAll(all).entries[i].evidence != AfterAll(all).entries[j].evidence
  {
    EveryCampaign(all);
    OwnFilesAll(all);
    var e, f := AfterAll(all).entries[i], AfterAll(all).entries[j];
    if e.evidence == f.evidence {
      ReferenceInjective(e.segment, e.attempt, f.segment, f.attempt);
      NumbersDiffer(AfterAll(all).entries, i, j);
    }
  }

  /** Over every sequence of campaigns on one record, a reused entry stands for exactly one executed
      attempt: the one pass, earlier and of the same segment and identity, whose file it names. */
  lemma ReusedNamesOnePass(all: seq<Campaigning>, i: nat) returns (j: nat)
    requires forall k | 0 <= k < |all| :: Possible(all[k])
    requires i < |AfterAll(all).entries| && AfterAll(all).entries[i].status == "cached"
    ensures j < i
    ensures var e, f := AfterAll(all).entries[i], AfterAll(all).entries[j];
            f.status == "pass" && f.segment == e.segment && f.identity == e.identity && f.evidence == e.evidence
    ensures forall k | 0 <= k < |AfterAll(all).entries| && AfterAll(all).entries[k].status != "cached"
                       && AfterAll(all).entries[k].evidence == AfterAll(all).entries[i].evidence :: k == j
  {
    EveryCampaign(all);
    var entries := AfterAll(all).entries;
    assert PassedBefore(entries, i, entries[i]);
    j :| 0 <= j < i && entries[j].segment == entries[i].segment && entries[j].status == "pass"
         && entries[j].identity == entries[i].identity && entries[j].evidence == entries[i].evidence;
    forall k | 0 <= k < |entries| && entries[k].status != "cached" && entries[k].evidence == entries[i].evidence
      ensures k == j
    {
      if k < j { FilesDiffer(all, k, j); }
      if j < k { FilesDiffer(all, j, k); }
    }
  }
}
