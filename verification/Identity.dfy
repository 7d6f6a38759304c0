/** The strings behind deterministic identifiers: equal strings name equal entities. */
module Identity {
  import opened Wrappers
  import opened Decimal

  function Joined(ids: seq<Int64>): string {
    if ids == [] then "" else if |ids| == 1 then Format(ids[0]) else Format(ids[0]) + ":" + Joined(ids[1..])
  }

  // join: format every id, then put ":" between them.
  method Join(ids: seq<Int64>) returns (s: string)
    ensures s == Joined(ids)
  {
    var parts := new string[|ids|](_ => "");
    for i := 0 to |ids|
      invariant forall j :: 0 <= j < i ==> parts[j] == Format(ids[j])
    {
      parts[i] := Format(ids[i]);
    }
    s := "";
    var i := |ids|;
    while i > 0
      invariant 0 <= i <= |ids|
      invariant s == Joined(ids[i..])
    {
      i := i - 1;
      assert ids[i..][1..] == ids[i + 1..];
      s := if i + 1 == |ids| then parts[i] else parts[i] + ":" + s;
    }
    assert ids[0..] == ids;
  }

  // The part of s before its first colon.
  function Head(s: string): (h: string)
    ensures h <= s && ':' !in h
    ensures |h| < |s| ==> s[|h|] == ':'
  {
    if s == [] || s[0] == ':' then [] else [s[0]] + Head(s[1..])
  }

  lemma {:induction false} HeadOf(a: string, b: string)
    requires ':' !in a
    ensures Head(a + ":" + b) == a && Head(a) == a
    decreases |a|
  {
    if a == [] {
    } else {
      HeadOf(a[1..], b);
      assert (a + ":" + b)[1..] == a[1..] + ":" + b;
      assert a == [a[0]] + a[1..];
    }
  }

  // What follows a colon does not change the part before the first one.
  lemma {:induction false} HeadOfMore(a: string, b: string)
    ensures Head(a + ":" + b) == Head(a)
    decreases |a|
  {
    if a == [] || a[0] == ':' {
    } else {
      HeadOfMore(a[1..], b);
      assert (a + ":" + b)[1..] == a[1..] + ":" + b;
    }
  }

  lemma HeadOfJoined(ids: seq<Int64>)
    requires ids != []
    ensures Head(Joined(ids)) == Format(ids[0])
    ensures |ids| > 1 ==> |Joined(ids)| > |Format(ids[0])| && Joined(ids)[|Format(ids[0])| + 1..] == Joined(ids[1..])
    ensures |ids| == 1 ==> Joined(ids) == Format(ids[0])
  {
    assert ':' !in Format(ids[0]);
    if |ids| > 1 {
      HeadOf(Format(ids[0]), Joined(ids[1..]));
    } else {
      HeadOf(Format(ids[0]), "");
    }
  }

  lemma JoinedIsEmptyIff(ids: seq<Int64>)
    ensures Joined(ids) == "" <==> ids == []
  {
    if ids != [] {
      HeadOfJoined(ids);
    }
  }

  // Equal strings agree on their first id and on what follows it.
  lemma JoinedParts(a: seq<Int64>, b: seq<Int64>)
    requires Joined(a) == Joined(b) && a != [] && b != []
    ensures a[0] == b[0] && (|a| == 1 <==> |b| == 1)
    ensures Joined(a[1..]) == Joined(b[1..])
  {
    HeadOfJoined(a);
    HeadOfJoined(b);
    FormatInjective(a[0], b[0]);
  }

  // The joined string determines the list.
  lemma {:induction false} JoinedInjective(a: seq<Int64>, b: seq<Int64>)
    requires Joined(a) == Joined(b)
    ensures a == b
    decreases |a|
  {
    JoinedIsEmptyIff(a);
    JoinedIsEmptyIff(b);
    if a != [] {
      JoinedParts(a, b);
      JoinedInjective(a[1..], b[1..]);
      assert a == [a[0]] + a[1..] && b == [b[0]] + b[1..];
    }
  }

  // ----- entities and the strings that are hashed for them -----

  datatype RecordKind = RunRecord | JobRecord | StepRecord

  datatype Entity =
    | Trace(repository: Int64, run: Int64, attempt: Int64)
    | RunSpan(run: Int64, attempt: Int64)
    | JobSpan(job: Int64)
    | StepSpan(job: Int64, step: Int64)
    | Record(kind: RecordKind, ids: seq<Int64>)

  const NS_TRACE := "antwatcher:trace:"
  const NS_RUN := "antwatcher:run:"
  const NS_JOB := "antwatcher:job:"
  const NS_STEP := "antwatcher:step:"
  const NS_RECORD := "antwatcher:record:"

  function KindText(k: RecordKind): string {
    match k case RunRecord => "run" case JobRecord => "job" case StepRecord => "step"
  }

  function Prefix(e: Entity): string {
    match e
    case Trace(_, _, _) => NS_TRACE
    case RunSpan(_, _) => NS_RUN
    case JobSpan(_) => NS_JOB
    case StepSpan(_, _) => NS_STEP
    case Record(k, _) => NS_RECORD + KindText(k) + ":"
  }

  function Ids(e: Entity): seq<Int64> {
    match e
    case Trace(repository, run, attempt) => [repository, run, attempt]
    case RunSpan(run, attempt) => [run, attempt]
    case JobSpan(job) => [job]
    case StepSpan(job, step) => [job, step]
    case Record(_, ids) => ids
  }

  function Text(e: Entity): string {
    Prefix(e) + Joined(Ids(e))
  }

  // Namespaces and record kinds differ within the shorter prefix.
  lemma PrefixesDiffer(e: Entity, f: Entity)
    requires Text(e) == Text(f)
    ensures Prefix(e) == Prefix(f)
    ensures e.Record? == f.Record? && (e.Record? ==> e.kind == f.kind)
    ensures e.Trace? == f.Trace? && e.RunSpan? == f.RunSpan? && e.JobSpan? == f.JobSpan? && e.StepSpan? == f.StepSpan?
  {
    var s, t := Text(e), Text(f);
    assert s[..11] == t[..11];
    assert s[11] == Prefix(e)[11] && t[11] == Prefix(f)[11];
    assert s[12] == Prefix(e)[12] && t[12] == Prefix(f)[12];
    if e.Record? && f.Record? {
      assert s[18] == Prefix(e)[18] && t[18] == Prefix(f)[18];
      assert Prefix(e)[18] == KindText(e.kind)[0] && Prefix(f)[18] == KindText(f.kind)[0];
    }
  }

  // Distinct entities hash distinct strings, within and across namespaces and kinds.
  lemma TextInjective(e: Entity, f: Entity)
    requires Text(e) == Text(f)
    ensures e == f
  {
    PrefixesDiffer(e, f);
    assert Text(e)[|Prefix(e)|..] == Joined(Ids(e));
    assert Text(f)[|Prefix(f)|..] == Joined(Ids(f));
    JoinedInjective(Ids(e), Ids(f));
    if e.Trace? {
      assert Ids(e)[0] == Ids(f)[0] && Ids(e)[1] == Ids(f)[1] && Ids(e)[2] == Ids(f)[2];
    } else if e.RunSpan? || e.StepSpan? {
      assert Ids(e)[0] == Ids(f)[0] && Ids(e)[1] == Ids(f)[1];
    } else if e.JobSpan? {
      assert Ids(e)[0] == Ids(f)[0];
    }
  }

  // Under a hash without collisions, equal ids mean the same entity.
  lemma SameIDSameEntity<H(!new)>(hash: string -> H, e: Entity, f: Entity)
    requires forall a: string, b: string :: hash(a) == hash(b) ==> a == b
    ensures hash(Text(e)) == hash(Text(f)) <==> e == f
  {
    if hash(Text(e)) == hash(Text(f)) {
      TextInjective(e, f);
    }
  }

  // ----- runs, jobs and steps -----

  datatype RunKey = RunKey(repository: Int64, run: Int64, attempt: Int64)

  datatype JobKey = JobKey(run: RunKey, job: Int64)

  function RunTrace(r: RunKey): Entity {
    Trace(r.repository, r.run, r.attempt)
  }

  function RunRecordOf(r: RunKey): Entity {
    Record(RunRecord, [r.repository, r.run, r.attempt])
  }

  function JobRecordOf(j: JobKey): Entity {
    Record(JobRecord, [j.run.repository, j.run.run, j.run.attempt, j.job])
  }

  function StepRecordOf(j: JobKey, step: Int64): Entity {
    Record(StepRecord, [j.run.repository, j.run.run, j.run.attempt, j.job, step])
  }

  // Record strings tell runs, jobs and steps apart, and two records of one kind by their keys.
  lemma RecordTextsIdentify(r: RunKey, q: RunKey, j: JobKey, k: JobKey, s: Int64, t: Int64)
    ensures Text(RunRecordOf(r)) == Text(RunRecordOf(q)) <==> r == q
    ensures Text(JobRecordOf(j)) == Text(JobRecordOf(k)) <==> j == k
    ensures Text(StepRecordOf(j, s)) == Text(StepRecordOf(k, t)) <==> j == k && s == t
    ensures Text(RunRecordOf(r)) != Text(JobRecordOf(j))
    ensures Text(JobRecordOf(j)) != Text(StepRecordOf(k, t))
    ensures Text(StepRecordOf(k, t)) != Text(RunRecordOf(r))
    ensures Text(RunTrace(r)) == Text(RunTrace(q)) <==> r == q
  {
    RecordInjective(RunRecordOf(r), RunRecordOf(q));
    RecordInjective(JobRecordOf(j), JobRecordOf(k));
    RecordInjective(StepRecordOf(j, s), StepRecordOf(k, t));
    RecordInjective(RunRecordOf(r), JobRecordOf(j));
    RecordInjective(JobRecordOf(j), StepRecordOf(k, t));
    RecordInjective(StepRecordOf(k, t), RunRecordOf(r));
    RecordInjective(RunTrace(r), RunTrace(q));
    assert [r.repository, r.run, r.attempt] == [q.repository, q.run, q.attempt] ==> r == q by {
      if [r.repository, r.run, r.attempt] == [q.repository, q.run, q.attempt] {
        assert [r.repository, r.run, r.attempt][0] == [q.repository, q.run, q.attempt][0];
      }
    }
  }

  lemma RecordInjective(e: Entity, f: Entity)
    ensures Text(e) == Text(f) <==> e == f
    ensures Text(e) == Text(f) ==> Ids(e) == Ids(f)
  {
    if Text(e) == Text(f) {
      TextInjective(e, f);
    }
  }
}
