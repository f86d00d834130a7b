/** A campaign as it runs: a loop that reads and appends to the file, whatever the file holds. */
module Execution {
  import opened LittleEndian
  import opened Wrappers
  import opened Json
  import opened JsonText
  import opened Journal
  import opened Campaign

  /** A campaign part way through its segments, over the text of the file. */
  datatype FileRun = FileRun(text: string, results: seq<SegmentResult>, ok: bool)

  /** What one segment does: it reads the whole file again, and stops at an unreadable one. */
  function FileStep(text: string, c: Campaign, id: string, clock: Option<string>, run: Option<Outcome>)
    : Option<(SegmentResult, string)>
  {
    var entries :- ReadLines(Lines(text));
    SegmentStep(entries, c, id, clock, run)
  }

  function LineOf(c: Campaign, result: SegmentResult, started: string): string {
    Encode(JournalFields(c, result, started)) + "\n"
  }

  function FileAdvance(r: FileRun, c: Campaign, id: string, clock: Option<string>, run: Option<Outcome>): FileRun {
    if !r.ok then r
    else
      match FileStep(r.text, c, id, clock, run)
      case None => r.(ok := false)
      case Some((result, started)) => FileRun(r.text + LineOf(c, result, started), r.results + [result], true)
  }

  /** The first `n` segments of a campaign against a file. */
  function FileSegments(
    text: string, c: Campaign, clock: seq<Option<string>>, runs: seq<Option<Outcome>>, n: nat): FileRun
    requires n <= |c.segments| == |clock| == |runs|
  {
    if n == 0 then FileRun(text, [], true)
    else FileAdvance(FileSegments(text, c, clock, runs, n - 1), c, c.segments[n - 1], clock[n - 1], runs[n - 1])
  }

  // ---------------------------------------------------------------- what holds of any file

  /** The file only ever grows, whatever it held. */
  lemma {:induction false} FileGrows(
    text: string, c: Campaign, clock: seq<Option<string>>, runs: seq<Option<Outcome>>, n: nat)
    requires n <= |c.segments| == |clock| == |runs|
    ensures text <= FileSegments(text, c, clock, runs, n).text
  {
    if n > 0 {
      FileGrows(text, c, clock, runs, n - 1);
      var r := FileSegments(text, c, clock, runs, n - 1);
      AdvanceGrows(r, c, c.segments[n - 1], clock[n - 1], runs[n - 1]);
    }
  }

  lemma AdvanceGrows(r: FileRun, c: Campaign, id: string, clock: Option<string>, run: Option<Outcome>)
    ensures r.text <= FileAdvance(r, c, id, clock, run).text
  {
  }

  /** Against a file that cannot be read a campaign records nothing. */
  lemma {:induction false} UnreadableStops(
    text: string, c: Campaign, clock: seq<Option<string>>, runs: seq<Option<Outcome>>, n: nat)
    requires 0 < n <= |c.segments| == |clock| == |runs| && ReadLines(Lines(text)).None?
    ensures FileSegments(text, c, clock, runs, n) == FileRun(text, [], false)
  {
    if n == 1 {
      UnreadableStep(FileRun(text, [], true), c, c.segments[0], clock[0], runs[0]);
    } else {
      UnreadableStops(text, c, clock, runs, n - 1);
    }
  }

  lemma UnreadableStep(r: FileRun, c: Campaign, id: string, clock: Option<string>, run: Option<Outcome>)
    requires r.ok && ReadLines(Lines(r.text)).None?
    ensures FileAdvance(r, c, id, clock, run) == r.(ok := false)
  {
  }

  // ---------------------------------------------------------------- a file the runner wrote

  /** Over a file the runner wrote, the campaign over its text is the campaign over its entries. */
  lemma {:induction false} FileRefines(
    objects: seq<seq<Field>>, entries: seq<JournalEntry>, c: Campaign,
    clock: seq<Option<string>>, runs: seq<Option<Outcome>>, n: nat)
    requires n <= |c.segments| == |clock| == |runs| && Collect(objects) == Some(entries)
    ensures var r := RunSegments(objects, entries, c, clock, runs, n);
            && Collect(r.objects) == Some(r.entries)
            && FileSegments(JournalText(objects), c, clock, runs, n) == FileRun(JournalText(r.objects), r.results, r.ok)
  {
    if n > 0 {
      FileRefines(objects, entries, c, clock, runs, n - 1);
      var r := RunSegments(objects, entries, c, clock, runs, n - 1);
      StepRefines(r, c, c.segments[n - 1], clock[n - 1], runs[n - 1]);
    }
  }

  lemma StepRefines(r: Run, c: Campaign, id: string, clock: Option<string>, run: Option<Outcome>)
    requires Collect(r.objects) == Some(r.entries)
    ensures var next := Advance(r, c, id, clock, run);
            && Collect(next.objects) == Some(next.entries)
            && FileAdvance(FileRun(JournalText(r.objects), r.results, r.ok), c, id, clock, run)
               == FileRun(JournalText(next.objects), next.results, next.ok)
  {
    AppendsReadBack(r.objects);
    if r.ok {
      match SegmentStep(r.entries, c, id, clock, run)
      case None =>
      case Some((result, started)) =>
        FieldsRecordAttempt(c, result, started);
        CollectAppend(r.objects, JournalFields(c, result, started));
        JournalAppend(r.objects, JournalFields(c, result, started));
    }
  }

  /** The text of one file after each campaign in turn. */
  function FileAfterAll(all: seq<Campaigning>): string
    requires forall i | 0 <= i < |all| :: Possible(all[i])
  {
    if all == [] then ""
    else
      var x := all[|all| - 1];
      assert Possible(x);
      FileSegments(FileAfterAll(all[..|all| - 1]), x.c, x.clock, x.runs, |x.c.segments|).text
  }

  /** Over every sequence of campaigns that starts with an empty file, the file reads back as the
      entries of those campaigns. */
  lemma {:induction false} FileReadsBack(all: seq<Campaigning>)
    requires forall i | 0 <= i < |all| :: Possible(all[i])
    ensures FileAfterAll(all) == JournalText(AfterAll(all).objects)
    ensures ReadLines(Lines(FileAfterAll(all))) == Some(AfterAll(all).entries)
  {
    EveryCampaign(all);
    if all != [] {
      var x := all[|all| - 1];
      FileReadsBack(all[..|all| - 1]);
      EveryCampaign(all[..|all| - 1]);
      assert Possible(x);
      var before := AfterAll(all[..|all| - 1]);
      FileRefines(before.objects, before.entries, x.c, x.clock, x.runs, |x.c.segments|);
    }
  }

  // ---------------------------------------------------------------- the loop

  /** Builds the journal line of one attempt. */
  method JournalLine(c: Campaign, r: SegmentResult, started: string) returns (entry: Object)
    ensures fresh(entry) && entry.Valid() && entry.fields == JournalFields(c, r, started)
  {
    entry := new Object();
    entry.String("segment", r.id);
    entry.Integer("attempt", r.attempt);
    entry.String("started", started);
    entry.Integer("duration_ms", r.duration);
    assert entry.fields == JournalHead(r, started);
    JournalRest(c, r, entry);
  }

  method JournalRest(c: Campaign, r: SegmentResult, entry: Object)
    requires entry.Valid()
    modifies entry
    ensures entry.Valid()
    ensures entry.fields == old(entry.fields) + JournalTail(c, r)
                            + if r.note.Some? then [Field("note", Text(r.note.value))] else []
  {
    entry.String("status", r.status.Name());
    entry.String("subject_revision", c.revision);
    entry.String("evidence_identity", c.identity);
    entry.String("evidence", r.evidence);
    assert entry.fields == old(entry.fields) + JournalTail(c, r);
    if r.note.Some? { entry.String("note", r.note.value); }
  }

  /** Runs or reuses one segment, from what the file holds. */
  method RunSegment(c: Campaign, record: RunRecord, id: string, clock: Option<string>, run: Option<Outcome>)
    returns (step: Option<(SegmentResult, string)>)
    ensures step == FileStep(record.journal, c, id, clock, run)
  {
    var attempts := record.AttemptsFor(id);
    if attempts == None || attempts.value + 1 >= 0x1_0000_0000 { return None; }
    if clock == None { return None; }
    var prior := record.LastEntryFor(id);
    if prior == None { return None; }
    step := Decide(c, id, attempts.value + 1, clock.value, prior.value, run);
  }

  /** Reuses a prior attempt that still holds, or takes what running the segment gave. */
  method Decide(
    c: Campaign, id: string, attempt: U32, started: string, prior: Option<JournalEntry>, run: Option<Outcome>)
    returns (step: Option<(SegmentResult, string)>)
    ensures Reusable(c, prior) ==>
              step == Some((SegmentResult(id, attempt, Cached, 0, Some(ReusedNote(prior.value.attempt)),
                                          prior.value.evidence, c.identity), started))
    ensures !Reusable(c, prior) ==>
              step == match run
                      case None => None
                      case Some(outcome) =>
                        Some((SegmentResult(id, attempt, outcome.status, outcome.duration, outcome.note,
                                            EvidenceReference(id, attempt), c.identity), started))
  {
    if Reusable(c, prior) {
      return Some((SegmentResult(id, attempt, Cached, 0, Some(ReusedNote(prior.value.attempt)),
                                 prior.value.evidence, c.identity), started));
    }
    if run == None { return None; }
    return Some((SegmentResult(id, attempt, run.value.status, run.value.duration, run.value.note,
                               EvidenceReference(id, attempt), c.identity), started));
  }

  /** Runs or reuses one segment and appends its attempt to the journal. */
  method RecordSegment(c: Campaign, record: RunRecord, id: string, clock: Option<string>, run: Option<Outcome>)
    returns (result: Option<SegmentResult>)
    modifies record
    ensures match FileStep(old(record.journal), c, id, clock, run)
            case None => result == None && record.journal == old(record.journal)
            case Some((r, started)) =>
              result == Some(r) && record.journal == old(record.journal) + LineOf(c, r, started)
  {
    var step := RunSegment(c, record, id, clock, run);
    if step == None { return None; }
    var entry := JournalLine(c, step.value.0, step.value.1);
    record.AppendJournal(entry);
    return Some(step.value.0);
  }

  /** One step between the states of a campaign. */
  ghost predicate StepAt(
    states: seq<FileRun>, c: Campaign, clock: seq<Option<string>>, runs: seq<Option<Outcome>>, k: nat)
    requires k < |c.segments| == |clock| == |runs| && |states| == |c.segments| + 1
  {
    states[k + 1] == FileAdvance(states[k], c, c.segments[k], clock[k], runs[k])
  }

  /** The states of a campaign, before its first segment and after each one. */
  ghost predicate Trail(states: seq<FileRun>, c: Campaign, clock: seq<Option<string>>, runs: seq<Option<Outcome>>) {
    && |states| - 1 == |c.segments| == |clock| == |runs|
    && forall k | 0 <= k < |c.segments| :: StepAt(states, c, clock, runs, k)
  }

  /** A campaign that stopped records nothing more. */
  lemma {:induction false} StoppedStays(
    states: seq<FileRun>, c: Campaign, clock: seq<Option<string>>, runs: seq<Option<Outcome>>, k: nat, n: nat)
    requires Trail(states, c, clock, runs) && k <= n < |states| && !states[k].ok
    ensures states[n] == states[k]
    decreases n - k
  {
    if k < n {
      StoppedStays(states, c, clock, runs, k, n - 1);
      assert StepAt(states, c, clock, runs, n - 1);
    }
  }

  /** Records segment `k`, or stops the campaign there. */
  method RecordNext(
    c: Campaign, record: RunRecord, clock: seq<Option<string>>, runs: seq<Option<Outcome>>, k: nat,
    ghost states: seq<FileRun>)
    returns (result: Option<SegmentResult>)
    requires Trail(states, c, clock, runs) && k < |c.segments| && states[k].ok && states[k].text == record.journal
    modifies record
    ensures states[k + 1].text == record.journal && states[k + 1].ok == result.Some?
    ensures result.Some? ==> states[k + 1].results == states[k].results + [result.value]
    ensures result.None? ==> states[|c.segments|] == FileRun(record.journal, states[k].results, false)
  {
    assert StepAt(states, c, clock, runs, k);
    result := RecordSegment(c, record, c.segments[k], clock[k], runs[k]);
    if result == None { StoppedStays(states, c, clock, runs, k + 1, |c.segments|); }
  }

  /** Runs or reuses every segment, recording each attempt as it ends. A file that cannot be read, or
      an attempt that fails to run, stops the campaign and leaves what was recorded. */
  method RecordAll(
    c: Campaign, record: RunRecord, clock: seq<Option<string>>, runs: seq<Option<Outcome>>, ghost states: seq<FileRun>)
    returns (ok: bool, results: seq<SegmentResult>)
    requires Trail(states, c, clock, runs) && states[0] == FileRun(record.journal, [], true)
    modifies record
    ensures states[|c.segments|] == FileRun(record.journal, results, ok)
  {
    results := [];
    for k := 0 to |c.segments|
      invariant states[k] == FileRun(record.journal, results, true)
    {
      var result := RecordNext(c, record, clock, runs, k, states);
      if result == None { return false, results; }
      results := results + [result.value];
    }
    return true, results;
  }

  /** The states of a campaign against a file. */
  ghost function States(text: string, c: Campaign, clock: seq<Option<string>>, runs: seq<Option<Outcome>>)
    : (states: seq<FileRun>)
    requires |c.segments| == |clock| == |runs|
    ensures |states| == |c.segments| + 1
    ensures forall k | 0 <= k <= |c.segments| :: states[k] == FileSegments(text, c, clock, runs, k)
  {
    seq(|c.segments| + 1, k requires 0 <= k <= |c.segments| => FileSegments(text, c, clock, runs, k))
  }

  lemma StatesTrail(text: string, c: Campaign, clock: seq<Option<string>>, runs: seq<Option<Outcome>>)
    requires |c.segments| == |clock| == |runs|
    ensures Trail(States(text, c, clock, runs), c, clock, runs)
  {
    var states := States(text, c, clock, runs);
    forall k | 0 <= k < |c.segments| ensures StepAt(states, c, clock, runs, k) {
      assert states[k + 1] == FileSegments(text, c, clock, runs, k + 1);
    }
  }

  /** A whole campaign against any file: the file is left, and the report made, as the campaign over
      its text says, and the file only grows. */
  method Execute(c: Campaign, record: RunRecord, clock: seq<Option<string>>, runs: seq<Option<Outcome>>)
    returns (report: Option<(seq<SegmentResult>, SealState)>)
    requires |c.segments| == |clock| == |runs|
    modifies record
    ensures var r := FileSegments(old(record.journal), c, clock, runs, |c.segments|);
            && record.journal == r.text
            && report == if r.ok then Some((r.results, Seal(c.segments, r.results, c.identity, c.cleanTree))) else None
    ensures old(record.journal) <= record.journal
  {
    FileGrows(record.journal, c, clock, runs, |c.segments|);
    StatesTrail(record.journal, c, clock, runs);
    var ok, results := RecordAll(c, record, clock, runs, States(record.journal, c, clock, runs));
    if !ok { return None; }
    return Some((results, Seal(c.segments, results, c.identity, c.cleanTree)));
  }
}
