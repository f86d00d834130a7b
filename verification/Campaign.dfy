/** Campaigns against one record: each attempt is journaled, a passed attempt may be reused, and a
    seal is only ever given over real passes. */
module Campaign {
  import opened LittleEndian
  import opened Wrappers
  import opened Json
  import opened Journal

  datatype Status = Pass | Fail | Timeout | Skipped | Cached {
    function Name(): string {
      match this
      case Pass => "pass"
      case Fail => "fail"
      case Timeout => "timeout"
      case Skipped => "skipped"
      case Cached => "cached"
    }

    predicate Holds() {
      Pass? || Cached?
    }
  }

  function ParseStatus(text: string): Option<Status> {
    if text == "pass" then Some(Pass)
    else if text == "fail" then Some(Fail)
    else if text == "timeout" then Some(Timeout)
    else if text == "skipped" then Some(Skipped)
    else if text == "cached" then Some(Cached)
    else None
  }

  /** What running a segment produced; running never reports a reused result. */
  datatype Outcome = Outcome(status: Status, duration: U64, note: Option<string>)

  predicate Executed(o: Outcome) {
    !o.status.Cached?
  }

  datatype Campaign = Campaign(
    revision: string, identity: string, segments: seq<string>, resume: bool, cleanTree: bool)

  datatype SegmentResult = SegmentResult(
    id: string, attempt: U32, status: Status, duration: U64, note: Option<string>, evidence: string, identity: string)

  function PadTwo(n: nat): string {
    if n < 10 then "0" + Decimal(n) else Decimal(n)
  }

  function EvidenceReference(segment: string, attempt: U32): string {
    "segments/" + segment + "-" + PadTwo(attempt) + ".txt"
  }

  function JournalHead(r: SegmentResult, started: string): seq<Field> {
    [Field("segment", Text(r.id)), Field("attempt", Number(r.attempt)), Field("started", Text(started)),
     Field("duration_ms", Number(r.duration))]
  }

  function JournalTail(c: Campaign, r: SegmentResult): seq<Field> {
    [Field("status", Text(r.status.Name())), Field("subject_revision", Text(c.revision)),
     Field("evidence_identity", Text(c.identity)), Field("evidence", Text(r.evidence))]
  }

  /** The fields of one attempt's journal line. */
  function JournalFields(c: Campaign, r: SegmentResult, started: string): seq<Field> {
    JournalHead(r, started) + JournalTail(c, r) + if r.note.Some? then [Field("note", Text(r.note.value))] else []
  }

  function EntryFor(c: Campaign, r: SegmentResult): JournalEntry {
    JournalEntry(r.id, r.attempt, r.status.Name(), c.identity, r.evidence)
  }

  lemma FieldsPlaced(c: Campaign, r: SegmentResult, started: string)
    ensures var fields := JournalFields(c, r, started);
            && FirstAt(fields, Field("segment", Text(r.id)), 0)
            && FirstAt(fields, Field("attempt", Number(r.attempt)), 1)
            && FirstAt(fields, Field("started", Text(started)), 2)
            && FirstAt(fields, Field("duration_ms", Number(r.duration)), 3)
            && FirstAt(fields, Field("status", Text(r.status.Name())), 4)
            && FirstAt(fields, Field("subject_revision", Text(c.revision)), 5)
            && FirstAt(fields, Field("evidence_identity", Text(c.identity)), 6)
            && FirstAt(fields, Field("evidence", Text(r.evidence)), 7)
    ensures match r.note
            case None => NoneLike(JournalFields(c, r, started), Field("note", Text("")))
            case Some(note) => FirstAt(JournalFields(c, r, started), Field("note", Text(note)), 8)
  {
  }

  /** A journal line reads back as the attempt it records. */
  lemma FieldsRecordAttempt(c: Campaign, r: SegmentResult, started: string)
    ensures EntryOf(JournalFields(c, r, started)) == Some(EntryFor(c, r))
  {
    FieldsPlaced(c, r, started);
    EntryOfExactly(JournalFields(c, r, started), EntryFor(c, r));
  }

  /** It also keeps when the attempt started, how long it took, what it ran on and its note, if any. */
  lemma FieldsRecordRest(c: Campaign, r: SegmentResult, started: string)
    ensures var fields := JournalFields(c, r, started);
            && StringField(fields, "started") == Some(started) && NumberField(fields, "duration_ms") == Some(r.duration)
            && StringField(fields, "subject_revision") == Some(c.revision) && StringField(fields, "note") == r.note
  {
    var fields := JournalFields(c, r, started);
    FieldsPlaced(c, r, started);
    FieldFound(fields, Field("started", Text(started)));
    FieldFound(fields, Field("duration_ms", Number(r.duration)));
    FieldFound(fields, Field("subject_revision", Text(c.revision)));
    FieldFound(fields, Field("note", Text(OrElse(r.note, ""))));
  }

  /** A prior attempt that still proves what this campaign needs. */
  predicate Reusable(c: Campaign, prior: Option<JournalEntry>) {
    && c.resume && prior.Some?
    && ParseStatus(prior.value.status).Some? && ParseStatus(prior.value.status).value.Holds()
    && prior.value.identity == c.identity
  }

  function ReusedNote(attempt: U32): string {
    "reused the result recorded by attempt " + Decimal(attempt)
  }

  /** What one segment of a campaign gives, with what the clock and a run of it would say. */
  function SegmentStep(
    entries: seq<JournalEntry>, c: Campaign, id: string, clock: Option<string>, run: Option<Outcome>)
    : Option<(SegmentResult, string)>
  {
    var attempt := Attempts(entries, id) + 1;
    if attempt >= 0x1_0000_0000 then None
    else
      var started :- clock;
      var prior := LastEntry(entries, id);
      if Reusable(c, prior) then
        Some((SegmentResult(id, attempt, Cached, 0, Some(ReusedNote(prior.value.attempt)), prior.value.evidence,
                            c.identity), started))
      else
        var outcome :- run;
        Some((SegmentResult(id, attempt, outcome.status, outcome.duration, outcome.note,
                            EvidenceReference(id, attempt), c.identity), started))
  }

  /** The last attempt at a segment passed, or was itself reused, under the identity `identity`. */
  predicate StandsAt(entries: seq<JournalEntry>, id: string, identity: string, i: int) {
    && Latest(entries, id, i) && (entries[i].status == "pass" || entries[i].status == "cached")
    && entries[i].identity == identity
  }

  ghost predicate Stands(entries: seq<JournalEntry>, id: string, identity: string) {
    exists i :: StandsAt(entries, id, identity, i)
  }

  lemma ReusableExactly(entries: seq<JournalEntry>, c: Campaign, id: string)
    ensures Reusable(c, LastEntry(entries, id)) <==> c.resume && Stands(entries, id, c.identity)
    ensures forall i | StandsAt(entries, id, c.identity, i) :: LastEntry(entries, id) == Some(entries[i])
  {
    LastEntryIndex(entries, id);
    match LastEntry(entries, id)
    case None =>
    case Some(e) =>
      var i :| Latest(entries, id, i) && entries[i] == e;
      ParsedStatus(e.status);
      assert forall j | Latest(entries, id, j) :: j == i;
      assert StandsAt(entries, id, c.identity, i)
        <==> ParseStatus(e.status) in {Some(Pass), Some(Cached)} && e.identity == c.identity;
  }

  /** A segment is reused exactly when the campaign resumes and the last attempt at it stands under the
      campaign's identity; it is then told with that attempt's evidence and no time spent. Otherwise it
      is what running it gave, under a reference of its own. It fails to be recorded exactly when its
      attempts cannot be counted, the clock cannot be read, or it had to run and could not. */
  lemma StepExactly(
    entries: seq<JournalEntry>, c: Campaign, id: string, clock: Option<string>, run: Option<Outcome>)
    ensures var step, reused := SegmentStep(entries, c, id, clock, run), c.resume && Stands(entries, id, c.identity);
            && (step.None? <==> || Attempts(entries, id) >= 0xFFFF_FFFF || clock.None? || (!reused && run.None?))
            && (step.Some? ==>
                  && step.value.0.id == id && step.value.0.attempt == Attempts(entries, id) + 1
                  && step.value.0.identity == c.identity && Some(step.value.1) == clock
                  && (!reused ==>
                        run == Some(Outcome(step.value.0.status, step.value.0.duration, step.value.0.note))
                        && step.value.0.evidence == EvidenceReference(id, step.value.0.attempt))
                  && (reused ==>
                        step.value.0.status == Cached && step.value.0.duration == 0
                        && forall i | StandsAt(entries, id, c.identity, i) ::
                             step.value.0.evidence == entries[i].evidence
                             && step.value.0.note == Some(ReusedNote(entries[i].attempt))))
  {
    ReusableExactly(entries, c, id);
  }

  /** A campaign part way through its segments; a failed one keeps what it recorded. */
  datatype Run = Run(objects: seq<seq<Field>>, entries: seq<JournalEntry>, results: seq<SegmentResult>, ok: bool)

  function Advance(r: Run, c: Campaign, id: string, clock: Option<string>, run: Option<Outcome>): Run {
    if !r.ok then r
    else
      match SegmentStep(r.entries, c, id, clock, run)
      case None => r.(ok := false)
      case Some((result, started)) =>
        Run(r.objects + [JournalFields(c, result, started)], r.entries + [EntryFor(c, result)],
            r.results + [result], true)
  }

  /** The first `n` segments of a campaign. */
  function RunSegments(
    objects: seq<seq<Field>>, entries: seq<JournalEntry>, c: Campaign,
    clock: seq<Option<string>>, runs: seq<Option<Outcome>>, n: nat): Run
    requires n <= |c.segments| == |clock| == |runs|
  {
    if n == 0 then Run(objects, entries, [], true)
    else Advance(RunSegments(objects, entries, c, clock, runs, n - 1), c, c.segments[n - 1], clock[n - 1], runs[n - 1])
  }

  datatype SealState = Partial | Sealed | Failed

  /** Whether a set of results seals. */
  function Seal(required: seq<string>, results: seq<SegmentResult>, identity: string, cleanTree: bool): SealState {
    if exists r | r in results :: !r.status.Holds() then Failed
    else if (exists id | id in required :: forall r | r in results :: r.id != id)
         || (exists r | r in results :: r.status.Holds() && r.identity != identity)
         || !cleanTree then Partial
    else Sealed
  }

  // ---------------------------------------------------------------- what the journal keeps

  /** Entries of a segment are numbered 1, 2, 3, ... in order. */
  predicate Numbered(entries: seq<JournalEntry>) {
    forall i | 0 <= i < |entries| :: entries[i].attempt == Attempts(entries[..i], entries[i].segment) + 1
  }

  /** A pass of the same segment under the same identity with the same evidence, before entry `n`. */
  predicate PassedBefore(entries: seq<JournalEntry>, n: nat, e: JournalEntry)
    requires n <= |entries|
  {
    exists j :: 0 <= j < n && entries[j].segment == e.segment && entries[j].status == "pass"
                && entries[j].identity == e.identity && entries[j].evidence == e.evidence
  }

  /** Every reused entry traces back to a real pass. */
  predicate Traced(entries: seq<JournalEntry>) {
    forall i | 0 <= i < |entries| && entries[i].status == "cached" :: PassedBefore(entries, i, entries[i])
  }

  lemma StatusNames(s: Status)
    ensures ParseStatus(s.Name()) == Some(s)
    ensures s.Name() == "pass" <==> s.Pass?
    ensures s.Name() == "fail" <==> s.Fail?
    ensures s.Name() == "timeout" <==> s.Timeout?
    ensures s.Name() == "skipped" <==> s.Skipped?
    ensures s.Name() == "cached" <==> s.Cached?
  {
  }

  lemma ParsedStatus(text: string)
    ensures ParseStatus(text) == Some(Pass) <==> text == "pass"
    ensures ParseStatus(text) == Some(Cached) <==> text == "cached"
  {
    assert "fail" != "pass" by { assert "fail"[0] != "pass"[0]; }
  }

  lemma PassedGrows(entries: seq<JournalEntry>, n: nat, e: JournalEntry, last: JournalEntry)
    requires n <= |entries|
    ensures PassedBefore(entries, n, e) ==> PassedBefore(entries + [last], n, e)
  {
    if PassedBefore(entries, n, e) {
      var j :| 0 <= j < n && entries[j].segment == e.segment && entries[j].status == "pass"
               && entries[j].identity == e.identity && entries[j].evidence == e.evidence;
      assert (entries + [last])[j] == entries[j];
    }
  }

  /** A reusable prior entry stands for a real pass. */
  lemma ReusableTraces(entries: seq<JournalEntry>, c: Campaign, id: string, e: JournalEntry)
    requires Traced(entries) && Reusable(c, LastEntry(entries, id))
    requires e.segment == id && e.identity == c.identity && e.evidence == LastEntry(entries, id).value.evidence
    ensures PassedBefore(entries, |entries|, e)
  {
    LastEntryIndex(entries, id);
    var i :| Latest(entries, id, i) && entries[i] == LastEntry(entries, id).value;
    ParsedStatus(entries[i].status);
    if entries[i].status == "cached" {
      assert PassedBefore(entries, i, entries[i]);
      var j :| 0 <= j < i && entries[j].segment == id && entries[j].status == "pass"
               && entries[j].identity == c.identity && entries[j].evidence == e.evidence;
    }
  }

  lemma NumberedGrows(entries: seq<JournalEntry>, e: JournalEntry)
    requires Numbered(entries) && e.attempt == Attempts(entries, e.segment) + 1
    ensures Numbered(entries + [e])
  {
    var more := entries + [e];
    forall i | 0 <= i < |more| ensures more[i].attempt == Attempts(more[..i], more[i].segment) + 1 {
      if i < |entries| { assert more[..i] == entries[..i]; } else { assert more[..i] == entries; }
    }
  }

  lemma TracedGrows(entries: seq<JournalEntry>, e: JournalEntry)
    requires Traced(entries) && (e.status == "cached" ==> PassedBefore(entries, |entries|, e))
    ensures Traced(entries + [e])
  {
    var more := entries + [e];
    forall i | 0 <= i < |more| && more[i].status == "cached" ensures PassedBefore(more, i, more[i]) {
      PassedGrows(entries, i, more[i], e);
    }
  }

  /** One segment keeps the journal numbered and traced, and its entry reads back. */
  lemma StepKeeps(
    entries: seq<JournalEntry>, c: Campaign, id: string, clock: Option<string>, run: Option<Outcome>)
    requires Numbered(entries) && Traced(entries) && (run.Some? ==> Executed(run.value))
    requires SegmentStep(entries, c, id, clock, run).Some?
    ensures var r := SegmentStep(entries, c, id, clock, run).value.0;
            && r.id == id && r.identity == c.identity
            && Numbered(entries + [EntryFor(c, r)]) && Traced(entries + [EntryFor(c, r)])
            && (r.status.Cached? ==> PassedBefore(entries, |entries|, EntryFor(c, r)))
  {
    var r := SegmentStep(entries, c, id, clock, run).value.0;
    var e := EntryFor(c, r);
    StatusNames(r.status);
    if r.status.Cached? { ReusableTraces(entries, c, id, e); }
    NumberedGrows(entries, e);
    TracedGrows(entries, e);
  }

  /** A pass of `id` under `identity` with that evidence is in the journal. */
  predicate HasPass(entries: seq<JournalEntry>, id: string, identity: string, evidence: string) {
    exists j :: 0 <= j < |entries| && entries[j].segment == id && entries[j].status == "pass"
                && entries[j].identity == identity && entries[j].evidence == evidence
  }

  lemma HasPassGrows(entries: seq<JournalEntry>, e: JournalEntry, id: string, identity: string, evidence: string)
    requires HasPass(entries, id, identity, evidence)
    ensures HasPass(entries + [e], id, identity, evidence)
  {
    var j :| 0 <= j < |entries| && entries[j].segment == id && entries[j].status == "pass"
             && entries[j].identity == identity && entries[j].evidence == evidence;
    assert (entries + [e])[j] == entries[j];
  }

  /** What holds part way through a campaign: a result that holds has a real pass with its evidence. */
  predicate RunInv(r: Run, c: Campaign) {
    && Collect(r.objects) == Some(r.entries) && Numbered(r.entries) && Traced(r.entries)
    && (forall i | 0 <= i < |r.results| ::
          r.results[i].identity == c.identity
          && (r.results[i].status.Holds() ==>
                HasPass(r.entries, r.results[i].id, c.identity, r.results[i].evidence)))
  }

  /** The entries after the first `start` are those of the results, one for each. */
  predicate Recorded(r: Run, c: Campaign, start: nat) {
    && |r.entries| == start + |r.results|
    && forall i | 0 <= i < |r.results| :: r.entries[start + i] == EntryFor(c, r.results[i])
  }

  lemma RecordedNext(r: Run, c: Campaign, id: string, clock: Option<string>, run: Option<Outcome>, start: nat)
    requires Recorded(r, c, start)
    ensures Recorded(Advance(r, c, id, clock, run), c, start)
  {
  }

  lemma AdvanceKeeps(r: Run, c: Campaign, id: string, clock: Option<string>, run: Option<Outcome>)
    requires RunInv(r, c) && (run.Some? ==> Executed(run.value))
    ensures RunInv(Advance(r, c, id, clock, run), c) && r.entries <= Advance(r, c, id, clock, run).entries
    ensures Advance(r, c, id, clock, run).ok ==>
              |Advance(r, c, id, clock, run).results| == |r.results| + 1
              && Advance(r, c, id, clock, run).results[|r.results|].id == id
              && Advance(r, c, id, clock, run).results[..|r.results|] == r.results
  {
    if r.ok && SegmentStep(r.entries, c, id, clock, run).Some? {
      var (result, started) := SegmentStep(r.entries, c, id, clock, run).value;
      var e := EntryFor(c, result);
      StepKeeps(r.entries, c, id, clock, run);
      FieldsRecordAttempt(c, result, started);
      CollectAppend(r.objects, JournalFields(c, result, started));
      ResultHasPass(r.entries, c, result);
      forall i | 0 <= i < |r.results| && r.results[i].status.Holds()
        ensures HasPass(r.entries + [e], r.results[i].id, c.identity, r.results[i].evidence)
      {
        HasPassGrows(r.entries, e, r.results[i].id, c.identity, r.results[i].evidence);
      }
    }
  }

  lemma ResultHasPass(entries: seq<JournalEntry>, c: Campaign, r: SegmentResult)
    requires r.status.Cached? ==> PassedBefore(entries, |entries|, EntryFor(c, r))
    ensures r.status.Holds() ==> HasPass(entries + [EntryFor(c, r)], r.id, c.identity, r.evidence)
  {
    var e := EntryFor(c, r);
    StatusNames(r.status);
    if r.status.Pass? {
      assert (entries + [e])[|entries|] == e;
    } else if r.status.Cached? {
      var j :| 0 <= j < |entries| && entries[j].segment == e.segment && entries[j].status == "pass"
               && entries[j].identity == e.identity && entries[j].evidence == e.evidence;
      assert HasPass(entries, r.id, c.identity, r.evidence);
      HasPassGrows(entries, e, r.id, c.identity, r.evidence);
    }
  }

  /** The results are those of the first `n` segments, in order. */
  predicate Covers(results: seq<SegmentResult>, c: Campaign, n: nat)
    requires n <= |c.segments|
  {
    |results| == n && forall i | 0 <= i < n :: results[i].id == c.segments[i]
  }

  lemma CoversNext(results: seq<SegmentResult>, next: seq<SegmentResult>, c: Campaign, n: nat)
    requires n < |c.segments| && Covers(results, c, n)
    requires |next| == n + 1 && next[..n] == results && next[n].id == c.segments[n]
    ensures Covers(next, c, n + 1)
  {
    forall i | 0 <= i < n ensures next[i].id == c.segments[i] { assert next[i] == next[..n][i]; }
  }

  lemma {:induction false} RunKeeps(
    objects: seq<seq<Field>>, entries: seq<JournalEntry>, c: Campaign,
    clock: seq<Option<string>>, runs: seq<Option<Outcome>>, n: nat)
    requires n <= |c.segments| == |clock| == |runs|
    requires Collect(objects) == Some(entries) && Numbered(entries) && Traced(entries)
    requires forall i | 0 <= i < |runs| && runs[i].Some? :: Executed(runs[i].value)
    ensures var r := RunSegments(objects, entries, c, clock, runs, n);
            && RunInv(r, c) && entries <= r.entries && Recorded(r, c, |entries|)
            && (r.ok ==> Covers(r.results, c, n))
  {
    if n > 0 {
      RunKeeps(objects, entries, c, clock, runs, n - 1);
      var r := RunSegments(objects, entries, c, clock, runs, n - 1);
      AdvanceKeeps(r, c, c.segments[n - 1], clock[n - 1], runs[n - 1]);
      RecordedNext(r, c, c.segments[n - 1], clock[n - 1], runs[n - 1], |entries|);
      var next := Advance(r, c, c.segments[n - 1], clock[n - 1], runs[n - 1]);
      if next.ok { CoversNext(r.results, next.results, c, n - 1); }
    }
  }

  // ---------------------------------------------------------------- sealing

  /** Results seal exactly when all hold, none is missing, all are under the identity, and the tree is
      clean; one that does not hold fails the record whatever else is missing. */
  lemma SealExact(required: seq<string>, results: seq<SegmentResult>, identity: string, cleanTree: bool)
    ensures Seal(required, results, identity, cleanTree) == Sealed
            <==> (forall i | 0 <= i < |results| :: results[i].status.Holds() && results[i].identity == identity)
                 && (forall id | id in required :: exists i :: 0 <= i < |results| && results[i].id == id)
                 && cleanTree
    ensures Seal(required, results, identity, cleanTree) == Failed
            <==> exists i :: 0 <= i < |results| && !results[i].status.Holds()
  {
    var byIndex := forall i | 0 <= i < |results| :: results[i].status.Holds() && results[i].identity == identity;
    forall i | 0 <= i < |results| ensures results[i] in results {}
    forall id | id in required
      ensures (forall r | r in results :: r.id != id) <==> !exists i :: 0 <= i < |results| && results[i].id == id
    {}
    assert byIndex <==> forall r | r in results :: r.status.Holds() && r.identity == identity;
  }

  /** A sealed campaign has, for each required segment, a real pass under its own identity in the
      journal with the very evidence the report names, and the journal is everything it held before
      followed by one entry for each result, in order. */
  lemma SealedMeansPassed(
    objects: seq<seq<Field>>, entries: seq<JournalEntry>, c: Campaign,
    clock: seq<Option<string>>, runs: seq<Option<Outcome>>)
    requires |c.segments| == |clock| == |runs|
    requires Collect(objects) == Some(entries) && Numbered(entries) && Traced(entries)
    requires forall i | 0 <= i < |runs| && runs[i].Some? :: Executed(runs[i].value)
    ensures var r := RunSegments(objects, entries, c, clock, runs, |c.segments|);
            && entries <= r.entries && Recorded(r, c, |entries|)
            && (r.ok && Seal(c.segments, r.results, c.identity, c.cleanTree) == Sealed ==>
                  && |r.results| == |c.segments|
                  && forall i | 0 <= i < |c.segments| ::
                       r.results[i].id == c.segments[i]
                       && HasPass(r.entries, c.segments[i], c.identity, r.results[i].evidence))
  {
    RunKeeps(objects, entries, c, clock, runs, |c.segments|);
    var r := RunSegments(objects, entries, c, clock, runs, |c.segments|);
    SealExact(c.segments, r.results, c.identity, c.cleanTree);
  }

  // ---------------------------------------------------------------- every sequence of campaigns

  /** One campaign with what the clock and its segments will say. */
  datatype Campaigning = Campaigning(c: Campaign, clock: seq<Option<string>>, runs: seq<Option<Outcome>>)

  predicate Possible(x: Campaigning) {
    && |x.c.segments| == |x.clock| == |x.runs|
    && forall i | 0 <= i < |x.runs| && x.runs[i].Some? :: Executed(x.runs[i].value)
  }

  /** The record after each campaign in turn, whether it finished or stopped part way. */
  function AfterAll(all: seq<Campaigning>): Run
    requires forall i | 0 <= i < |all| :: Possible(all[i])
  {
    if all == [] then Run([], [], [], true)
    else
      var before := AfterAll(all[..|all| - 1]);
      var x := all[|all| - 1];
      assert Possible(x);
      RunSegments(before.objects, before.entries, x.c, x.clock, x.runs, |x.c.segments|)
  }

  /** Over every sequence of campaigns on one record, the file reads back as its entries, the k-th
      entry of a segment is numbered k, every reused entry traces back to an earlier pass of that
      segment with the same identity and evidence, and no campaign takes back an entry. */
  lemma {:induction false} EveryCampaign(all: seq<Campaigning>)
    requires forall i | 0 <= i < |all| :: Possible(all[i])
    ensures var r := AfterAll(all);
            && ReadLines(Lines(JournalText(r.objects))) == Some(r.entries)
            && Collect(r.objects) == Some(r.entries) && Numbered(r.entries) && Traced(r.entries)
    ensures all != [] ==> AfterAll(all[..|all| - 1]).entries <= AfterAll(all).entries
  {
    AppendsReadBack(AfterAll(all).objects);
    if all != [] {
      EveryCampaign(all[..|all| - 1]);
      var before, x := AfterAll(all[..|all| - 1]), all[|all| - 1];
      RunKeeps(before.objects, before.entries, x.c, x.clock, x.runs, |x.c.segments|);
    }
  }

  /** Over every sequence of campaigns on one record: if the last one seals, each of its required
      segments has a real pass in the journal, under its identity and with the evidence it reports. */
  lemma LastSealMeansPassed(all: seq<Campaigning>)
    requires all != [] && forall i | 0 <= i < |all| :: Possible(all[i])
    ensures var r, c, start := AfterAll(all), all[|all| - 1].c, |AfterAll(all[..|all| - 1]).entries|;
            && Recorded(r, c, start)
            && (r.ok && Seal(c.segments, r.results, c.identity, c.cleanTree) == Sealed ==>
                  && |r.results| == |c.segments|
                  && forall i | 0 <= i < |c.segments| ::
                       r.results[i].id == c.segments[i]
                       && HasPass(r.entries, c.segments[i], c.identity, r.results[i].evidence))
  {
    var before, x := AfterAll(all[..|all| - 1]), all[|all| - 1];
    EveryCampaign(all[..|all| - 1]);
    assert Possible(x);
    SealedMeansPassed(before.objects, before.entries, x.c, x.clock, x.runs);
  }
}
