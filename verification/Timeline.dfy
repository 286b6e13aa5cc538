/** data-platform-observability-service/src/domain/timeline.ts: an execution's timeline. */
module Timeline {
  import opened Options
  import opened Rollup
  import opened StableSort

  datatype RunInput = RunInput(
    stage: Stage, status: Status, sourceService: string, sourceEntityId: Option<string>,
    startedAt: Option<int>, completedAt: Option<int>, durationMs: Option<int>, errorMessage: Option<string>)

  datatype Entry = Entry(
    timestamp: int, stage: Stage, status: Status, sourceService: string, sourceEntityId: Option<string>,
    durationMs: Option<int>, message: string)

  function StageName(stage: Stage): string {
    match stage
    case EXCHANGE_RECEIVED => "EXCHANGE_RECEIVED"
    case EXCHANGE_VALIDATION => "EXCHANGE_VALIDATION"
    case BRONZE_INGESTION => "BRONZE_INGESTION"
    case SILVER_TRANSFORMATION => "SILVER_TRANSFORMATION"
    case GOLD_PRODUCT_BUILD => "GOLD_PRODUCT_BUILD"
    case QUALITY_VALIDATION => "QUALITY_VALIDATION"
    case PUBLICATION => "PUBLICATION"
    case OUTBOUND_EXCHANGE => "OUTBOUND_EXCHANGE"
    case FILE_DELIVERY => "FILE_DELIVERY"
    case API_DELIVERY => "API_DELIVERY"
  }

  function LowerStatus(status: Status): string {
    match status
    case PENDING => "pending"
    case RUNNING => "running"
    case SUCCEEDED => "succeeded"
    case FAILED => "failed"
    case RETRYING => "retrying"
    case BLOCKED => "blocked"
    case LATE => "late"
    case CANCELLED => "cancelled"
    case UNKNOWN => "unknown"
  }

  function StartedMessage(run: RunInput): string { StageName(run.stage) + " started (" + run.sourceService + ")" }

  function CompletedMessage(run: RunInput): string {
    if run.status == FAILED then
      StageName(run.stage) + " failed" + match run.errorMessage
                                         case Some(error) => if error == "" then "" else ": " + error
                                         case None => ""
    else StageName(run.stage) + " " + LowerStatus(run.status)
  }

  function Started(run: RunInput): Entry
    requires run.startedAt.Some?
  {
    Entry(run.startedAt.value, run.stage, RUNNING, run.sourceService, run.sourceEntityId, None, StartedMessage(run))
  }

  function Completed(run: RunInput): Entry
    requires run.completedAt.Some?
  {
    Entry(run.completedAt.value, run.stage, run.status, run.sourceService, run.sourceEntityId, run.durationMs,
          CompletedMessage(run))
  }

  function EntriesOf(run: RunInput): seq<Entry> {
    (if run.startedAt.Some? then [Started(run)] else []) + (if run.completedAt.Some? then [Completed(run)] else [])
  }

  function Entries(runs: seq<RunInput>): seq<Entry> {
    if runs == [] then [] else Entries(runs[..|runs| - 1]) + EntriesOf(runs[|runs| - 1])
  }

  predicate NotAfter(a: Entry, b: Entry) { a.timestamp <= b.timestamp }

  method BuildTimeline(runs: seq<RunInput>) returns (timeline: seq<Entry>)
    ensures timeline == Sort(Entries(runs), NotAfter)
    ensures Sorted(timeline, NotAfter) && multiset(timeline) == multiset(Entries(runs))
  {
    var entries: seq<Entry> := [];
    for i := 0 to |runs|
      invariant entries == Entries(runs[..i])
    {
      var run := runs[i];
      ghost var before := entries;
      if run.startedAt.Some? {
        entries := entries + [Started(run)];
      }
      if run.completedAt.Some? {
        entries := entries + [Completed(run)];
      }
      assert entries == before + EntriesOf(run);
      assert runs[..i + 1][..i] == runs[..i];
    }
    assert runs[..|runs|] == runs;
    SortSorts(Entries(runs), NotAfter);
    timeline := Sort(entries, NotAfter);
  }

  /** How many times a list of runs puts an entry on the timeline. */
  function Mentions(runs: seq<RunInput>, e: Entry): nat {
    if runs == [] then 0
    else Mentions(runs[..|runs| - 1], e)
         + (var run := runs[|runs| - 1];
            (if run.startedAt.Some? && Started(run) == e then 1 else 0)
            + if run.completedAt.Some? && Completed(run) == e then 1 else 0)
  }

  /** One entry for each start and one for each completion, no more and no fewer. */
  lemma {:induction false} OneEntryEach(runs: seq<RunInput>, e: Entry)
    ensures multiset(Sort(Entries(runs), NotAfter))[e] == Mentions(runs, e)
  {
    SortSorts(Entries(runs), NotAfter);
    EntriesCount(runs, e);
  }

  lemma {:induction false} EntriesCount(runs: seq<RunInput>, e: Entry)
    ensures multiset(Entries(runs))[e] == Mentions(runs, e)
  {
    hide Started, Completed;
    if runs != [] {
      EntriesCount(runs[..|runs| - 1], e);
    }
  }

  /** The entry a run's start leaves. */
  predicate ShowsStart(run: RunInput, e: Entry) {
    && run.startedAt == Some(e.timestamp) && e.stage == run.stage && e.status == RUNNING && e.durationMs == None
    && e.sourceService == run.sourceService && e.sourceEntityId == run.sourceEntityId
    && e.message == StageName(run.stage) + " started (" + run.sourceService + ")"
  }

  /** The entry its completion leaves: only a failure tells its error. */
  predicate ShowsEnd(run: RunInput, e: Entry) {
    && run.completedAt == Some(e.timestamp) && e.stage == run.stage && e.status == run.status
    && e.durationMs == run.durationMs
    && e.sourceService == run.sourceService && e.sourceEntityId == run.sourceEntityId
    && e.message == StageName(run.stage)
                    + (if run.status != FAILED then " " + LowerStatus(run.status)
                       else if run.errorMessage in {None, Some("")} then " failed"
                       else " failed: " + run.errorMessage.value)
  }

  /** On the timeline is exactly what some run's start or completion leaves. */
  lemma TimelineSays(runs: seq<RunInput>, e: Entry)
    ensures e in Sort(Entries(runs), NotAfter)
            <==> exists run :: run in runs && (ShowsStart(run, e) || ShowsEnd(run, e))
  {
    hide StageName, LowerStatus;
    SortSorts(Entries(runs), NotAfter);
    EntriesSay(runs, e);
    assert e in Sort(Entries(runs), NotAfter) <==> e in multiset(Entries(runs));
  }

  lemma {:induction false} EntriesSay(runs: seq<RunInput>, e: Entry)
    ensures e in Entries(runs) <==> exists run :: run in runs && (ShowsStart(run, e) || ShowsEnd(run, e))
  {
    hide StageName, LowerStatus, ShowsStart, ShowsEnd, EntriesOf;
    if runs != [] {
      var front, last := runs[..|runs| - 1], runs[|runs| - 1];
      EntriesSay(front, e);
      EntrySays(last, e);
      assert forall run :: run in runs <==> run in front || run == last;
    }
  }

  lemma EntrySays(run: RunInput, e: Entry)
    ensures e in EntriesOf(run) <==> ShowsStart(run, e) || ShowsEnd(run, e)
  {
    hide StageName, LowerStatus;
    assert run.startedAt.Some? ==> (e == Started(run) <==> ShowsStart(run, e));
    if run.completedAt.Some? {
      EndSays(run, e);
    }
  }

  lemma EndSays(run: RunInput, e: Entry)
    requires run.completedAt.Some?
    ensures e == Completed(run) <==> ShowsEnd(run, e)
  {
    hide StageName, LowerStatus;
    var name := StageName(run.stage);
    assert name + " failed" + "" == name + " failed";
    if run.errorMessage.Some? {
      var error := run.errorMessage.value;
      assert name + " failed" + (": " + error) == name + (" failed: " + error);
    }
    assert name + " " + LowerStatus(run.status) == name + (" " + LowerStatus(run.status));
  }

  /** The words themselves. */
  lemma Wording()
    ensures [StageName(EXCHANGE_RECEIVED), StageName(EXCHANGE_VALIDATION), StageName(BRONZE_INGESTION),
             StageName(SILVER_TRANSFORMATION), StageName(GOLD_PRODUCT_BUILD), StageName(QUALITY_VALIDATION),
             StageName(PUBLICATION), StageName(OUTBOUND_EXCHANGE), StageName(FILE_DELIVERY), StageName(API_DELIVERY)]
            == ["EXCHANGE_RECEIVED", "EXCHANGE_VALIDATION", "BRONZE_INGESTION", "SILVER_TRANSFORMATION",
                "GOLD_PRODUCT_BUILD", "QUALITY_VALIDATION", "PUBLICATION", "OUTBOUND_EXCHANGE", "FILE_DELIVERY",
                "API_DELIVERY"]
    ensures [LowerStatus(PENDING), LowerStatus(RUNNING), LowerStatus(SUCCEEDED), LowerStatus(RETRYING),
             LowerStatus(BLOCKED), LowerStatus(LATE), LowerStatus(CANCELLED), LowerStatus(UNKNOWN)]
            == ["pending", "running", "succeeded", "retrying", "blocked", "late", "cancelled", "unknown"]
  {
  }

  /** Entries of one instant keep the order of the runs. */
  lemma SameInstantKeepsOrder(runs: seq<RunInput>, instant: int)
    ensures Filter(Sort(Entries(runs), NotAfter), (e: Entry) => e.timestamp == instant)
            == Filter(Entries(runs), (e: Entry) => e.timestamp == instant)
  {
    SortIsStable(Entries(runs), NotAfter, (e: Entry) => e.timestamp == instant);
  }

  ghost predicate Precedes(entries: seq<Entry>, a: Entry, b: Entry) {
    exists i, j :: 0 <= i < j < |entries| && entries[i] == a && entries[j] == b
  }

  lemma {:induction false} FilterPrecedes(entries: seq<Entry>, keep: Entry -> bool, a: Entry, b: Entry)
    requires keep(a) && keep(b)
    ensures Precedes(Filter(entries, keep), a, b) <==> Precedes(entries, a, b)
  {
    if entries != [] {
      var rest := entries[1..];
      FilterPrecedes(rest, keep, a, b);
      FilterMembers(rest, keep);
      PrecedesCons(entries[0], rest, a, b);
      if keep(entries[0]) {
        PrecedesCons(entries[0], Filter(rest, keep), a, b);
      }
      assert entries == [entries[0]] + rest;
    }
  }

  lemma PrecedesCons(e: Entry, rest: seq<Entry>, a: Entry, b: Entry)
    ensures Precedes([e] + rest, a, b) <==> (e == a && b in rest) || Precedes(rest, a, b)
  {
    var all := [e] + rest;
    if i, j :| 0 <= i < j < |all| && all[i] == a && all[j] == b {
      assert rest[j - 1] == b;
      assert i > 0 ==> rest[i - 1] == a;
    }
    if e == a && b in rest {
      var j :| 0 <= j < |rest| && rest[j] == b;
      assert all[0] == a && all[j + 1] == b;
    }
    if i, j :| 0 <= i < j < |rest| && rest[i] == a && rest[j] == b {
      assert all[i + 1] == a && all[j + 1] == b;
    }
  }

  lemma {:induction false} PrecedesInEntries(runs: seq<RunInput>, run: RunInput)
    requires run in runs && run.startedAt.Some? && run.completedAt.Some?
    ensures Precedes(Entries(runs), Started(run), Completed(run))
  {
    hide Started, Completed;
    var before, last := runs[..|runs| - 1], runs[|runs| - 1];
    assert runs == before + [last];
    var n := |Entries(before)|;
    if run == last {
      assert Entries(runs)[n] == Started(run) && Entries(runs)[n + 1] == Completed(run);
    } else {
      PrecedesInEntries(before, run);
      var i, j :| 0 <= i < j < n && Entries(before)[i] == Started(run) && Entries(before)[j] == Completed(run);
      assert Entries(runs)[i] == Started(run) && Entries(runs)[j] == Completed(run);
    }
  }

  /** At one instant the order of pushing decides. */
  lemma SameInstantPrecedes(entries: seq<Entry>, a: Entry, b: Entry)
    requires a.timestamp == b.timestamp
    ensures Precedes(Sort(entries, NotAfter), a, b) <==> Precedes(entries, a, b)
  {
    hide Sort;
    var keep := (e: Entry) => e.timestamp == a.timestamp;
    SortIsStable(entries, NotAfter, keep);
    FilterPrecedes(entries, keep, a, b);
    FilterPrecedes(Sort(entries, NotAfter), keep, a, b);
  }

  /** At different instants time decides. */
  lemma TimePrecedes(timeline: seq<Entry>, a: Entry, b: Entry)
    requires Sorted(timeline, NotAfter) && a in timeline && b in timeline && a.timestamp != b.timestamp
    ensures Precedes(timeline, a, b) <==> a.timestamp < b.timestamp
  {
    var i, j :| 0 <= i < |timeline| && timeline[i] == a && 0 <= j < |timeline| && timeline[j] == b;
    assert i < j ==> NotAfter(timeline[i], timeline[j]);
    assert j < i ==> NotAfter(timeline[j], timeline[i]);
    if k, l :| 0 <= k < l < |timeline| && timeline[k] == a && timeline[l] == b {
      assert NotAfter(timeline[k], timeline[l]);
    }
  }

  /** A run that started no later than it completed shows its start before its completion;
      one with its times reversed shows only the reverse. */
  lemma StartShowsFirst(runs: seq<RunInput>, run: RunInput)
    requires run in runs && run.startedAt.Some? && run.completedAt.Some?
    ensures Precedes(Sort(Entries(runs), NotAfter), Started(run), Completed(run))
            <==> run.startedAt.value <= run.completedAt.value
  {
    hide Sort, Sorted, Precedes, Entries, StartedMessage, CompletedMessage;
    var entries := Entries(runs);
    var timeline := Sort(entries, NotAfter);
    var a, b := Started(run), Completed(run);
    PrecedesInEntries(runs, run);
    if a.timestamp == b.timestamp {
      SameInstantPrecedes(entries, a, b);
    } else {
      SortSorts(entries, NotAfter);
      SameElements(timeline, entries);
      PrecedesMembers(entries, a, b);
      TimePrecedes(timeline, a, b);
    }
  }

  lemma PrecedesMembers(entries: seq<Entry>, a: Entry, b: Entry)
    requires Precedes(entries, a, b)
    ensures a in entries && b in entries
  {
  }
}
