/** From executions to analytics rows, and what the current view then shows for each entity. */
module Projection {
  import opened Wrappers
  import opened Identity
  import opened CurrentView

  // ----- the model -----

  datatype Step = Step(number: Int64, status: string, startedAt: Option<int>, completedAt: Option<int>)

  datatype Run = Run(
    key: RunKey, status: string, createdAt: int, updatedAt: int, startedAt: Option<int>)

  datatype Job = Job(
    key: JobKey, status: string, createdAt: int, startedAt: Option<int>, completedAt: Option<int>, steps: seq<Step>)

  datatype Kind = KindNone | KindRun | KindJob

  // A nil entity is None.
  datatype Execution = Execution(kind: Kind, run: Option<Run>, job: Option<Job>, receivedAt: int, deliveryGUID: string)

  const COMPLETED := "completed"
  const IN_PROGRESS := "in_progress"
  const QUEUED := "queued"
  const WAITING := "waiting"
  const REQUESTED := "requested"
  const PENDING := "pending"

  function StatusRank(status: string): (r: nat)
    ensures r == 3 <==> status == COMPLETED
    ensures r <= 3
  {
    if status == COMPLETED then 3
    else if status == IN_PROGRESS then 2
    else if status == QUEUED || status == WAITING || status == REQUESTED || status == PENDING then 1
    else 0
  }

  // ----- event times -----

  // The zero time stands for a missing one.
  function OrTime(t: Option<int>, fallback: int): int {
    if t.None? || t.value == ZERO_TIME then fallback else t.value
  }

  function OrZero(t: int, fallback: int): int {
    if t == ZERO_TIME then fallback else t
  }

  function EventTime(e: Execution): int {
    if e.kind == KindRun && e.run.Some? then RunEventTime(e.run.value, e.receivedAt)
    else if e.kind == KindJob && e.job.Some? then JobEventTime(e.job.value, e.receivedAt)
    else e.receivedAt
  }

  function RunEventTime(r: Run, received: int): int {
    if r.status == COMPLETED then OrZero(r.updatedAt, received)
    else if r.status == IN_PROGRESS then OrTime(r.startedAt, received)
    else OrZero(r.createdAt, received)
  }

  function JobEventTime(j: Job, received: int): int {
    if j.status == COMPLETED then OrTime(j.completedAt, received)
    else if j.status == IN_PROGRESS then OrTime(j.startedAt, received)
    else OrZero(j.createdAt, received)
  }

  function StepEventTime(e: Execution, s: Step): int {
    var jobTime := EventTime(e);
    if e.kind != KindJob || e.job.None? then jobTime
    else if s.status == COMPLETED then OrTime(s.completedAt, jobTime)
    else if s.status == IN_PROGRESS then OrTime(s.startedAt, jobTime)
    else jobTime
  }

  // An event time is never the zero time, given a received time.
  lemma EventTimeIsSet(e: Execution, s: Step)
    requires e.receivedAt != ZERO_TIME
    ensures EventTime(e) != ZERO_TIME && StepEventTime(e, s) != ZERO_TIME
  {
    assert EventTime(e) != ZERO_TIME;
  }

  // ----- rows -----

  function NonEmpty(s: string): Option<string> {
    if s == "" then None else Some(s)
  }

  function NonZero(t: int): Option<int> {
    if t == ZERO_TIME then None else Some(t)
  }

  // Milliseconds of a duration in nanoseconds, truncated toward zero.
  function Milliseconds(d: int): int {
    if d >= 0 then d / 1_000_000 else -((-d) / 1_000_000)
  }

  function QueuedMs(status: string, created: Option<int>, started: Option<int>): Option<int> {
    if StatusRank(status) >= 2 && created.Some? && started.Some? then Some(Milliseconds(started.value - created.value))
    else None
  }

  function DurationMs(status: string, started: Option<int>, completed: Option<int>): Option<int> {
    if StatusRank(status) >= 3 && started.Some? && completed.Some?
    then Some(Milliseconds(completed.value - started.value))
    else None
  }

  function RunRow(hash: string -> string, e: Execution, r: Run): Row {
    var completed := if r.status == COMPLETED then NonZero(r.updatedAt) else None;
    Row(hash(Text(RunRecordOf(r.key))), NonEmpty(r.status), StatusRank(r.status),
        NonZero(r.createdAt), r.startedAt, completed,
        QueuedMs(r.status, NonZero(r.createdAt), r.startedAt), DurationMs(r.status, r.startedAt, completed),
        EventTime(e), e.receivedAt, e.deliveryGUID)
  }

  function JobRow(hash: string -> string, e: Execution, j: Job): Row {
    Row(hash(Text(JobRecordOf(j.key))), NonEmpty(j.status), StatusRank(j.status),
        NonZero(j.createdAt), j.startedAt, j.completedAt,
        QueuedMs(j.status, NonZero(j.createdAt), j.startedAt), DurationMs(j.status, j.startedAt, j.completedAt),
        EventTime(e), e.receivedAt, e.deliveryGUID)
  }

  // A step without a status of its own takes the job's.
  function StepStatus(j: Job, s: Step): string {
    if s.status == "" then j.status else s.status
  }

  function StepRow(hash: string -> string, e: Execution, j: Job, s: Step): Row {
    var status := StepStatus(j, s);
    Row(hash(Text(StepRecordOf(j.key, s.number))), NonEmpty(status), StatusRank(status),
        None, s.startedAt, s.completedAt,
        None, DurationMs(status, s.startedAt, s.completedAt),
        StepEventTime(e, s), e.receivedAt, e.deliveryGUID)
  }

  datatype Projected = Rows(rows: seq<Row>) | Skipped

  // One row per run event, one per job and step of a job event, the job first and the steps in order.
  ghost predicate Projects(hash: string -> string, e: Execution, rows: seq<Row>) {
    if e.kind == KindRun && e.run.Some? then rows == [RunRow(hash, e, e.run.value)]
    else if e.kind == KindJob && e.job.Some? then
      var j := e.job.value;
      && |rows| == 1 + |j.steps| && rows[0] == JobRow(hash, e, j)
      && forall i :: 0 <= i < |j.steps| ==> rows[i + 1] == StepRow(hash, e, j, j.steps[i])
    else rows == []
  }

  method Project(hash: string -> string, e: Execution) returns (p: Projected)
    ensures p.Skipped? <==> !(e.kind == KindRun && e.run.Some?) && !(e.kind == KindJob && e.job.Some?)
    ensures p.Rows? ==> Projects(hash, e, p.rows)
  {
    hide RunRow, JobRow, StepRow;
    if e.kind == KindRun && e.run.Some? {
      return Rows([RunRow(hash, e, e.run.value)]);
    }
    if e.kind == KindJob && e.job.Some? {
      var j := e.job.value;
      var out := [JobRow(hash, e, j)];
      for i := 0 to |j.steps|
        invariant |out| == 1 + i && out[0] == JobRow(hash, e, j)
        invariant forall k :: 0 <= k < i ==> out[k + 1] == StepRow(hash, e, j, j.steps[k])
      {
        out := out + [StepRow(hash, e, j, j.steps[i])];
      }
      return Rows(out);
    }
    p := Skipped;
  }

  ghost predicate CollisionFree(hash: string -> string) {
    forall a: string, b: string :: hash(a) == hash(b) ==> a == b
  }

  ghost predicate DistinctIDs(rows: seq<Row>) {
    forall i, j :: 0 <= i < j < |rows| ==> rows[i].recordID != rows[j].recordID
  }

  ghost predicate DistinctNumbers(steps: seq<Step>) {
    forall i, j :: 0 <= i < j < |steps| ==> steps[i].number != steps[j].number
  }

  // The rows of one event are about different records exactly when its step numbers differ.
  lemma RowsOfOneEvent(hash: string -> string, e: Execution, rows: seq<Row>)
    requires CollisionFree(hash) && Projects(hash, e, rows) && e.kind == KindJob && e.job.Some?
    ensures DistinctIDs(rows) <==> DistinctNumbers(e.job.value.steps)
  {
    var steps := e.job.value.steps;
    if DistinctNumbers(steps) {
      forall i, j | 0 <= i < j < |rows| ensures rows[i].recordID != rows[j].recordID {
        RowIDsDiffer(hash, e, rows, i, j);
      }
    }
    if DistinctIDs(rows) {
      forall i, j | 0 <= i < j < |steps| ensures steps[i].number != steps[j].number {
        RowIDsDiffer(hash, e, rows, i + 1, j + 1);
      }
    }
  }

  lemma RowIDsDiffer(hash: string -> string, e: Execution, rows: seq<Row>, i: nat, j: nat)
    requires CollisionFree(hash) && Projects(hash, e, rows) && e.kind == KindJob && e.job.Some?
    requires i < j < |rows|
    ensures rows[i].recordID != rows[j].recordID <==>
              i == 0 || e.job.value.steps[i - 1].number != e.job.value.steps[j - 1].number
  {
    var job := e.job.value;
    assert rows[j] == StepRow(hash, e, job, job.steps[j - 1]);
    if i == 0 {
      RecordInjective(JobRecordOf(job.key), StepRecordOf(job.key, job.steps[j - 1].number));
    } else {
      assert rows[i] == StepRow(hash, e, job, job.steps[i - 1]);
      StepIDsDiffer(hash, job.key, job.steps[i - 1].number, job.steps[j - 1].number);
    }
  }

  lemma StepIDsDiffer(hash: string -> string, j: JobKey, s: Int64, t: Int64)
    requires CollisionFree(hash)
    ensures hash(Text(StepRecordOf(j, s))) == hash(Text(StepRecordOf(j, t))) <==> s == t
  {
    RecordInjective(StepRecordOf(j, s), StepRecordOf(j, t));
    assert Ids(StepRecordOf(j, s))[4] == s && Ids(StepRecordOf(j, t))[4] == t;
  }

  // ----- what a row says -----

  // What a row is about: the event's run; or its job, and then each of its steps.
  datatype Subject = OfRun(run: RunKey) | OfJob(job: JobKey) | OfStep(job: JobKey, number: Int64)

  function SubjectOf(e: Execution, i: nat): Subject
    requires (e.kind == KindRun && e.run.Some?) || (e.kind == KindJob && e.job.Some? && i <= |e.job.value.steps|)
  {
    if e.kind == KindRun then OfRun(e.run.value.key)
    else if i == 0 then OfJob(e.job.value.key)
    else OfStep(e.job.value.key, e.job.value.steps[i - 1].number)
  }

  function RecordOf(s: Subject): Entity {
    match s
    case OfRun(r) => RunRecordOf(r)
    case OfJob(j) => JobRecordOf(j)
    case OfStep(j, n) => StepRecordOf(j, n)
  }

  lemma RowRecord(hash: string -> string, e: Execution, rows: seq<Row>, i: nat)
    requires Projects(hash, e, rows) && i < |rows|
    ensures (e.kind == KindRun && e.run.Some?) || (e.kind == KindJob && e.job.Some? && i <= |e.job.value.steps|)
    ensures rows[i].recordID == hash(Text(RecordOf(SubjectOf(e, i))))
  {
    if e.kind == KindJob && i > 0 {
      assert rows[i] == StepRow(hash, e, e.job.value, e.job.value.steps[i - 1]);
    }
  }

  // Rows of any two events share a record exactly when they are about the same run, the same job, or the
  // same-numbered step of the same job.
  lemma RowsShareRecordIff(hash: string -> string, e: Execution, f: Execution, a: seq<Row>, b: seq<Row>,
                           i: nat, j: nat)
    requires CollisionFree(hash) && Projects(hash, e, a) && Projects(hash, f, b) && i < |a| && j < |b|
    ensures (e.kind == KindRun && e.run.Some?) || (e.kind == KindJob && e.job.Some? && i <= |e.job.value.steps|)
    ensures (f.kind == KindRun && f.run.Some?) || (f.kind == KindJob && f.job.Some? && j <= |f.job.value.steps|)
    ensures e.kind == KindRun && f.kind == KindRun ==>
              (a[i].recordID == b[j].recordID <==> e.run.value.key == f.run.value.key)
    ensures e.kind == KindJob && f.kind == KindJob && i == 0 && j == 0 ==>
              (a[i].recordID == b[j].recordID <==> e.job.value.key == f.job.value.key)
    ensures e.kind == KindJob && f.kind == KindJob && i > 0 && j > 0 ==>
              (a[i].recordID == b[j].recordID <==>
                 && e.job.value.key == f.job.value.key
                 && e.job.value.steps[i - 1].number == f.job.value.steps[j - 1].number)
    ensures e.kind != f.kind || (e.kind == KindJob && (i == 0 <==> j > 0)) ==> a[i].recordID != b[j].recordID
  {
    hide Projects;
    RowRecord(hash, e, a, i);
    RowRecord(hash, f, b, j);
    SubjectsDiffer(SubjectOf(e, i), SubjectOf(f, j));
  }

  lemma SubjectsDiffer(s: Subject, t: Subject)
    ensures Text(RecordOf(s)) == Text(RecordOf(t)) <==> s == t
  {
    hide Text;
    RecordInjective(RecordOf(s), RecordOf(t));
    if RecordOf(s) == RecordOf(t) {
      var a, b := RecordOf(s).ids, RecordOf(t).ids;
      assert a[0] == b[0] && a[1] == b[1] && a[2] == b[2];
      assert !s.OfRun? ==> a[3] == b[3];
      assert s.OfStep? ==> a[4] == b[4];
    }
  }

  // d milliseconds of a duration in nanoseconds: the whole ones, with the duration's sign.
  predicate WholeMs(d: int, ms: int) {
    if d >= 0 then ms * 1_000_000 <= d < (ms + 1) * 1_000_000
    else (ms - 1) * 1_000_000 < d <= ms * 1_000_000 <= 0
  }

  lemma MillisecondsAreWhole(d: int)
    ensures WholeMs(d, Milliseconds(d))
  {
  }

  // A queue time once the work started and a duration once it completed, where the times are known.
  predicate TimingsRight(row: Row, status: string) {
    && (row.queuedMs.Some? <==>
          (status == "in_progress" || status == "completed") && row.createdAt.Some? && row.startedAt.Some?)
    && (row.queuedMs.Some? ==> WholeMs(row.startedAt.value - row.createdAt.value, row.queuedMs.value))
    && (row.durationMs.Some? <==> status == "completed" && row.startedAt.Some? && row.completedAt.Some?)
    && (row.durationMs.Some? ==> WholeMs(row.completedAt.value - row.startedAt.value, row.durationMs.value))
  }

  // t where it is set, else the fallback.
  predicate DatedAt(row: Row, t: Option<int>, fallback: int) {
    if t.Some? && t.value != ZERO_TIME then row.eventTime == t.value else row.eventTime == fallback
  }

  predicate Says(row: Row, e: Execution, status: string, created: Option<int>, started: Option<int>,
                 completed: Option<int>) {
    && row.status == (if status == "" then None else Some(status))
    && row.createdAt == (if created == Some(ZERO_TIME) then None else created)
    && row.startedAt == started
    && row.completedAt == completed
    && row.receivedAt == e.receivedAt && row.deliveryGUID == e.deliveryGUID
    && TimingsRight(row, status)
  }

  lemma TimesAreRight(row: Row, status: string)
    requires row.queuedMs == QueuedMs(status, row.createdAt, row.startedAt)
    requires row.durationMs == DurationMs(status, row.startedAt, row.completedAt)
    ensures TimingsRight(row, status)
  {
    if row.createdAt.Some? && row.startedAt.Some? {
      MillisecondsAreWhole(row.startedAt.value - row.createdAt.value);
    }
    if row.startedAt.Some? && row.completedAt.Some? {
      MillisecondsAreWhole(row.completedAt.value - row.startedAt.value);
    }
  }

  // The row of a run event: the run's own times, completed at its last update, dated by the transition to its
  // status or else by its receipt.
  lemma RunRowSays(hash: string -> string, e: Execution, rows: seq<Row>)
    requires Projects(hash, e, rows) && e.kind == KindRun && e.run.Some?
    ensures |rows| == 1
    ensures var r := e.run.value;
            && Says(rows[0], e, r.status, Some(r.createdAt), r.startedAt,
                    if r.status == "completed" && r.updatedAt != ZERO_TIME then Some(r.updatedAt) else None)
            && DatedAt(rows[0],
                       if r.status == "completed" then Some(r.updatedAt)
                       else if r.status == "in_progress" then r.startedAt else Some(r.createdAt),
                       e.receivedAt)
  {
    hide QueuedMs, DurationMs, TimingsRight;
    TimesAreRight(rows[0], e.run.value.status);
  }

  // The first row of a job event.
  lemma JobRowSays(hash: string -> string, e: Execution, rows: seq<Row>)
    requires Projects(hash, e, rows) && e.kind == KindJob && e.job.Some?
    ensures |rows| == 1 + |e.job.value.steps|
    ensures var j := e.job.value;
            && Says(rows[0], e, j.status, Some(j.createdAt), j.startedAt, j.completedAt)
            && DatedAt(rows[0],
                       if j.status == "completed" then j.completedAt
                       else if j.status == "in_progress" then j.startedAt else Some(j.createdAt),
                       e.receivedAt)
  {
    hide QueuedMs, DurationMs, TimingsRight;
    TimesAreRight(rows[0], e.job.value.status);
  }

  // The other rows: a step without a status shows the job's, and one without a date of its own has the job's.
  lemma StepRowSays(hash: string -> string, e: Execution, rows: seq<Row>, i: nat)
    requires Projects(hash, e, rows) && e.kind == KindJob && e.job.Some? && i < |e.job.value.steps|
    ensures |rows| == 1 + |e.job.value.steps|
    ensures var j, s := e.job.value, e.job.value.steps[i];
            && Says(rows[i + 1], e, if s.status == "" then j.status else s.status, None, s.startedAt, s.completedAt)
            && DatedAt(rows[i + 1],
                       if s.status == "completed" then s.completedAt
                       else if s.status == "in_progress" then s.startedAt else None,
                       rows[0].eventTime)
  {
    hide DurationMs, TimingsRight;
    var s := e.job.value.steps[i];
    assert rows[i + 1] == StepRow(hash, e, e.job.value, s);
    TimesAreRight(rows[i + 1], StepStatus(e.job.value, s));
  }

  // ----- what the view shows -----

  // A row of a log holds the status its rank was taken from.
  predicate Ranked(r: Row) {
    r.rank == StatusRank(if r.status.Some? then r.status.value else "")
  }

  lemma ProjectedRowsAreRanked(hash: string -> string, e: Execution, rows: seq<Row>)
    requires Projects(hash, e, rows)
    ensures forall r :: r in rows ==> Ranked(r)
  {
    if e.kind == KindJob && e.job.Some? {
      forall i | 0 <= i < |rows| ensures Ranked(rows[i]) {
        if i > 0 {
          assert rows[i] == StepRow(hash, e, e.job.value, e.job.value.steps[i - 1]);
        }
      }
    }
  }

  // Once any event reported an entity completed, the view shows it completed, whatever else arrives and in any order.
  lemma CompletedStays(rows: seq<Row>, v: map<string, Row>, r: Row)
    requires IsView(rows, v) && r in rows && (forall x :: x in rows ==> Ranked(x))
    requires r.status == Some(COMPLETED)
    ensures v[r.recordID].status == Some(COMPLETED)
  {
    assert v[r.recordID] in rows;
    assert COMPLETED != "";
  }

  // Nor does work that started look queued again, nor work with a known state like one of unknown state.
  lemma StatusNeverFallsBack(rows: seq<Row>, v: map<string, Row>, r: Row)
    requires IsView(rows, v) && r in rows && (forall x :: x in rows ==> Ranked(x))
    ensures r.status == Some("in_progress") ==>
              v[r.recordID].status == Some("in_progress") || v[r.recordID].status == Some("completed")
    ensures r.status.Some? && r.status.value in {"queued", "waiting", "requested", "pending"} ==>
              && v[r.recordID].status.Some?
              && v[r.recordID].status.value in
                   {"queued", "waiting", "requested", "pending", "in_progress", "completed"}
  {
    assert v[r.recordID] in rows && !Below(v[r.recordID], r);
    RankOrder(if r.status.Some? then r.status.value else "");
    RankOrder(if v[r.recordID].status.Some? then v[r.recordID].status.value else "");
  }

  lemma RankOrder(status: string)
    ensures StatusRank(status) == 2 <==> status == "in_progress"
    ensures StatusRank(status) == 1 <==> status in {"queued", "waiting", "requested", "pending"}
    ensures StatusRank(status) >= 1 ==> status != ""
  {
    assert "completed"[0] != "in_progress"[0];
  }

  // ----- replays -----

  // Whether the payload of an execution itself says when its entity's transition happened.
  predicate Dated(e: Execution) {
    EventTime(e.(receivedAt := ZERO_TIME)) != ZERO_TIME
  }

  // A dated event keeps its event time when it is delivered again; an undated one takes the new received time.
  lemma ReplayedEventTime(e: Execution, later: int)
    requires later != ZERO_TIME && e.receivedAt != ZERO_TIME
    ensures EventTime(e.(receivedAt := later)) == if Dated(e) then EventTime(e) else later
  {
  }

  // Replaying r, received later than anything seen, leaves the winner w of its record in place exactly when
  // w is strictly ahead in status rank, or in event time at equal rank: a tie there falls to the replay.
  lemma ReplayKeepsWinnerIff(rows: seq<Row>, v: map<string, Row>, r: Row)
    requires IsView(rows, v) && r.recordID in v
    requires forall x :: x in rows ==> x.receivedAt < r.receivedAt
    ensures var w := v[r.recordID];
            IsView(rows + [r], v) <==> r.rank < w.rank || (r.rank == w.rank && r.eventTime < w.eventTime)
  {
    var w := v[r.recordID];
    var all := rows + [r];
    assert w in rows;
    assert forall x :: x in all <==> x in rows || x == r;
    if !Below(r, w) {
      assert !Wins(all, w);
    } else {
      AppendRow(rows, v, r);
    }
  }

  // So a replay can put an older state back: a job is queued, then waiting, both dated by its creation;
  // delivering the queued event again shows it queued.
  lemma ReplayOverwritesExample(hash: string -> string, key: JobKey)
    ensures
      var queued := Execution(KindJob, None, Some(Job(key, QUEUED, 10, None, None, [])), 11, "a");
      var waiting := Execution(KindJob, None, Some(Job(key, WAITING, 10, None, None, [])), 20, "b");
      var replay := queued.(receivedAt := 30);
      var rows := [JobRow(hash, queued, queued.job.value), JobRow(hash, waiting, waiting.job.value)];
      var again := JobRow(hash, replay, replay.job.value);
      && Dated(queued) && again.status == Some(QUEUED)
      && IsView(rows, map[again.recordID := rows[1]]) && rows[1].status == Some(WAITING)
      && IsView(rows + [again], map[again.recordID := again])
  {
    assert |QUEUED| == 6 && |WAITING| == 7 && |COMPLETED| == 9 && |IN_PROGRESS| == 11;
    assert |REQUESTED| == 9 && REQUESTED[0] != COMPLETED[0] && |PENDING| == 7;
  }

  // Once an entity is completed, replaying any of its other states changes nothing, dated or not.
  lemma ReplayAfterCompletion(rows: seq<Row>, v: map<string, Row>, r: Row)
    requires IsView(rows, v) && r.recordID in v && Ranked(r) && Ranked(v[r.recordID])
    requires v[r.recordID].status == Some(COMPLETED) && r.status != Some(COMPLETED)
    ensures IsView(rows + [r], v)
  {
    assert COMPLETED != "";
    OlderRowsChangeNothing(rows, [r], v, v);
  }
}
