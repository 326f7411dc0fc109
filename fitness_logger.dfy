/** The set logger of a training session: the "previous best" of each exercise,
    the trend arrow beside reps and seconds, the "finished" marks of blocks, the
    record added by "+ Append Set" and the exercise picker. */
module SetLogging {
  import opened Common

  /** A row of `fitness_logs`. Weight is carried, never computed with. */
  datatype SetLog = SetLog(
    blockId: string,
    exerciseId: string,
    setNumber: int,
    reps: Option<int>,
    weight: Option<real>,
    durationSeconds: Option<int>,
    resistanceLevel: Option<string>,
    isCompleted: bool)

  /** A block of the current session with its logs. */
  datatype Block = Block(id: string, logs: seq<SetLog>)

  /** A log of the store together with the date of the session it belongs to. */
  datatype PastLog = PastLog(log: SetLog, sessionDate: int)

  /** One entry of `lastStats`. */
  datatype Stat = Stat(reps: Option<int>, weight: Option<real>, duration: Option<int>)

  /** The two measures that get a trend arrow. */
  datatype Metric = Reps | Duration

  /** `(l.reps || 0)` or `(l.duration_seconds || 0)`. */
  function Measure(l: SetLog, m: Metric): int
  {
    OrZero(if m.Reps? then l.reps else l.durationSeconds)
  }

  /** `(stats.reps || 0)` or `(stats.duration || 0)`. */
  function StatMeasure(st: Stat, m: Metric): int
  {
    OrZero(if m.Reps? then st.reps else st.duration)
  }

  /** The exercise ids occurring in the current session's blocks. */
  function SessionExerciseIds(blocks: seq<Block>): set<string>
  {
    set b, l | b in blocks && l in b.logs :: l.exerciseId
  }

  /** The exercise ids occurring in a list of logs. */
  function ExerciseIds(logs: seq<SetLog>): set<string>
  {
    if logs == [] then {} else ExerciseIds(logs[..|logs| - 1]) + {logs[|logs| - 1].exerciseId}
  }

  /** An id is among the exercise ids exactly when some log carries it. */
  lemma {:induction false} ExerciseIdsMembership(logs: seq<SetLog>, ex: string)
    ensures ex in ExerciseIds(logs) <==> exists j :: 0 <= j < |logs| && logs[j].exerciseId == ex
  {
    if logs != [] {
      var front := logs[..|logs| - 1];
      ExerciseIdsMembership(front, ex);
      if ex in ExerciseIds(front) {
        var j :| 0 <= j < |front| && front[j].exerciseId == ex;
        assert logs[j] == front[j];
      }
      if j :| 0 <= j < |logs| - 1 && logs[j].exerciseId == ex {
        assert front[j] == logs[j];
      }
    }
  }

  /** A past log the "last best" query returns: one of the session's exercises,
      from a session dated strictly before the current one. */
  predicate Selected(p: PastLog, exIds: set<string>, date: int)
  {
    p.log.exerciseId in exIds && p.sessionDate < date
  }

  /** The "last best" query, keeping the store's newest-first order. */
  function PreviousLogs(history: seq<PastLog>, exIds: set<string>, date: int): (r: seq<SetLog>)
    ensures |r| <= |history|
  {
    if history == [] then []
    else
      var last := history[|history| - 1];
      var r0 := PreviousLogs(history[..|history| - 1], exIds, date);
      if Selected(last, exIds, date) then r0 + [last.log] else r0
  }

  /** The keys of `lastStats` are exactly the session's exercises that have a
      log from an earlier session. */
  lemma {:induction false} PreviousExercises(history: seq<PastLog>, exIds: set<string>, date: int, ex: string)
    ensures ex in ExerciseIds(PreviousLogs(history, exIds, date)) <==>
              ex in exIds && exists k :: 0 <= k < |history| && history[k].log.exerciseId == ex
                                         && history[k].sessionDate < date
  {
    if history != [] {
      var front := history[..|history| - 1];
      var last := history[|history| - 1];
      var r0 := PreviousLogs(front, exIds, date);
      PreviousExercises(front, exIds, date, ex);
      if Selected(last, exIds, date) {
        assert (r0 + [last.log])[..|r0|] == r0;
      }
      if k :| 0 <= k < |history| && history[k].log.exerciseId == ex && history[k].sessionDate < date {
        if k < |front| {
          assert front[k] == history[k];
        }
      }
      if k :| 0 <= k < |front| && front[k].log.exerciseId == ex && front[k].sessionDate < date {
        assert history[k] == front[k];
      }
    }
  }

  /** The measures of one exercise's logs, in order. */
  function MeasuresOf(logs: seq<SetLog>, ex: string, m: Metric): (r: seq<int>)
    ensures |r| == 0 <==> ex !in ExerciseIds(logs)
  {
    if logs == [] then []
    else
      var last := logs[|logs| - 1];
      MeasuresOf(logs[..|logs| - 1], ex, m) + (if last.exerciseId == ex then [Measure(last, m)] else [])
  }

  /** The best value of a measure over one exercise's logs. */
  function Best(logs: seq<SetLog>, ex: string, m: Metric): int
    requires ex in ExerciseIds(logs)
  {
    Max(MeasuresOf(logs, ex, m))
  }

  /** One more log: the best grows to the new measure when that is larger and
      the log is of the exercise; otherwise it stays. */
  lemma BestSnoc(front: seq<SetLog>, last: SetLog, ex: string, m: Metric)
    requires ex in ExerciseIds(front)
    ensures ex in ExerciseIds(front + [last])
    ensures Best(front + [last], ex, m)
            == if last.exerciseId == ex then MaxOf2(Best(front, ex, m), Measure(last, m)) else Best(front, ex, m)
  {
    var logs := front + [last];
    assert logs[..|front|] == front;
    if last.exerciseId == ex {
      MaxSnoc(MeasuresOf(front, ex, m), Measure(last, m));
    } else {
      assert MeasuresOf(logs, ex, m) == MeasuresOf(front, ex, m) + [];
      assert MeasuresOf(front, ex, m) + [] == MeasuresOf(front, ex, m);
    }
  }

  /** `Best` is a maximum: no log of the exercise beats it and one reaches it. */
  lemma {:induction false} BestIsMaximum(logs: seq<SetLog>, ex: string, m: Metric)
    requires ex in ExerciseIds(logs)
    ensures forall j :: 0 <= j < |logs| && logs[j].exerciseId == ex ==> Measure(logs[j], m) <= Best(logs, ex, m)
    ensures exists j :: 0 <= j < |logs| && logs[j].exerciseId == ex && Measure(logs[j], m) == Best(logs, ex, m)
  {
    var front := logs[..|logs| - 1];
    var last := logs[|logs| - 1];
    assert logs == front + [last];
    if ex in ExerciseIds(front) {
      BestIsMaximum(front, ex, m);
      BestSnoc(front, last, ex, m);
      forall j | 0 <= j < |logs| && logs[j].exerciseId == ex
        ensures Measure(logs[j], m) <= Best(logs, ex, m)
      {
        if j < |front| {
          assert front[j] == logs[j];
        }
      }
      if last.exerciseId != ex || Measure(last, m) <= Best(front, ex, m) {
        var j :| 0 <= j < |front| && front[j].exerciseId == ex && Measure(front[j], m) == Best(front, ex, m);
        assert logs[j] == front[j];
      }
    } else {
      ExerciseIdsSnoc(front, last);
      assert MeasuresOf(logs, ex, m) == MeasuresOf(front, ex, m) + [Measure(last, m)];
      assert MeasuresOf(logs, ex, m) == [Measure(last, m)];
      ExerciseIdsMembership(front, ex);
    }
  }

  /** The first (newest) log of an exercise. */
  function FirstLogOf(logs: seq<SetLog>, ex: string): (r: Option<SetLog>)
    ensures r.Some? <==> ex in ExerciseIds(logs)
  {
    if logs == [] then None
    else
      var r0 := FirstLogOf(logs[..|logs| - 1], ex);
      if r0.Some? then r0
      else if logs[|logs| - 1].exerciseId == ex then Some(logs[|logs| - 1])
      else None
  }

  /** `FirstLogOf` picks the exercise's log at the lowest position. */
  lemma {:induction false} FirstLogIsFirst(logs: seq<SetLog>, ex: string)
    requires ex in ExerciseIds(logs)
    ensures exists k :: 0 <= k < |logs| && logs[k] == FirstLogOf(logs, ex).value && logs[k].exerciseId == ex
                        && forall j :: 0 <= j < k ==> logs[j].exerciseId != ex
  {
    var front := logs[..|logs| - 1];
    assert forall j :: 0 <= j < |front| ==> front[j] == logs[j];
    if ex in ExerciseIds(front) {
      FirstLogIsFirst(front, ex);
      var k :| 0 <= k < |front| && front[k] == FirstLogOf(front, ex).value && front[k].exerciseId == ex
               && forall j :: 0 <= j < k ==> front[j].exerciseId != ex;
      assert logs[k] == front[k];
    } else {
      ExerciseIdsMembership(front, ex);
      assert logs[|front|] == FirstLogOf(logs, ex).value;
    }
  }

  /** One entry of `lastStats` as the fold leaves it for exercise `ex`: reps and
      seconds the best over that exercise's logs, weight the one of its first log. */
  predicate EntryFor(st: Stat, logs: seq<SetLog>, ex: string)
    requires ex in ExerciseIds(logs)
  {
    && StatMeasure(st, Reps) == Best(logs, ex, Reps)
    && StatMeasure(st, Duration) == Best(logs, ex, Duration)
    && st.weight == FirstLogOf(logs, ex).value.weight
  }

  /** What `lastStats` holds after the fold over `logs`: one entry per exercise. */
  predicate StatsFor(stats: map<string, Stat>, logs: seq<SetLog>)
  {
    && stats.Keys == ExerciseIds(logs)
    && forall ex :: ex in stats ==> EntryFor(stats[ex], logs, ex)
  }

  /** The `forEach` that fills `stats`, entry by entry. */
  method BuildLastStats(prevLogs: seq<SetLog>) returns (stats: map<string, Stat>)
    ensures StatsFor(stats, prevLogs)
  {
    stats := map[];
    var i := 0;
    ghost var done: seq<SetLog> := [];
    while i < |prevLogs|
      invariant 0 <= i <= |prevLogs|
      invariant done == prevLogs[..i]
      invariant StatsFor(stats, done)
    {
      var l := prevLogs[i];
      if l.exerciseId !in stats {
        FoldNew(stats, done, l);
        stats := stats[l.exerciseId := Stat(l.reps, l.weight, l.durationSeconds)];
      } else {
        var st := stats[l.exerciseId];
        ghost var was := st;
        if Measure(l, Reps) > StatMeasure(st, Reps) {
          st := st.(reps := l.reps);
        }
        if Measure(l, Duration) > StatMeasure(st, Duration) {
          st := st.(duration := l.durationSeconds);
        }
        assert StatMeasure(st, Reps) == MaxOf2(StatMeasure(was, Reps), Measure(l, Reps));
        assert StatMeasure(st, Duration) == MaxOf2(StatMeasure(was, Duration), Measure(l, Duration));
        FoldExisting(stats, done, l, st);
        stats := stats[l.exerciseId := st];
      }
      TakeSnoc(prevLogs, i);
      done := done + [l];
      i := i + 1;
    }
    TakeAll(prevLogs);
  }

  lemma ExerciseIdsSnoc(done: seq<SetLog>, l: SetLog)
    ensures ExerciseIds(done + [l]) == ExerciseIds(done) + {l.exerciseId}
  {
    assert (done + [l])[..|done|] == done;
  }

  /** A log of an exercise not seen yet opens its entry with the log's values. */
  lemma FoldNew(before: map<string, Stat>, done: seq<SetLog>, l: SetLog)
    requires StatsFor(before, done)
    requires l.exerciseId !in before
    ensures StatsFor(before[l.exerciseId := Stat(l.reps, l.weight, l.durationSeconds)], done + [l])
  {
    var after := before[l.exerciseId := Stat(l.reps, l.weight, l.durationSeconds)];
    var logs := done + [l];
    ExerciseIdsSnoc(done, l);
    assert after.Keys == ExerciseIds(logs);
    forall ex | ex in after
      ensures ex in ExerciseIds(logs) && EntryFor(after[ex], logs, ex)
    {
      if ex == l.exerciseId {
        NewEntry(before, done, l);
      } else {
        Unchanged(done, l, ex);
      }
    }
  }

  lemma NewEntry(before: map<string, Stat>, done: seq<SetLog>, l: SetLog)
    requires StatsFor(before, done)
    requires l.exerciseId !in before
    ensures l.exerciseId in ExerciseIds(done + [l])
    ensures EntryFor(Stat(l.reps, l.weight, l.durationSeconds), done + [l], l.exerciseId)
  {
    var logs := done + [l];
    var ex := l.exerciseId;
    assert logs[..|done|] == done;
    assert MeasuresOf(done, ex, Reps) == [] && MeasuresOf(done, ex, Duration) == [];
    assert MeasuresOf(logs, ex, Reps) == [Measure(l, Reps)];
    assert MeasuresOf(logs, ex, Duration) == [Measure(l, Duration)];
  }

  /** A further log of a known exercise raises reps and seconds to the larger
      value and leaves the weight. */
  lemma FoldExisting(before: map<string, Stat>, done: seq<SetLog>, l: SetLog, st: Stat)
    requires StatsFor(before, done)
    requires l.exerciseId in before
    requires st.weight == before[l.exerciseId].weight
    requires StatMeasure(st, Reps) == MaxOf2(StatMeasure(before[l.exerciseId], Reps), Measure(l, Reps))
    requires StatMeasure(st, Duration) == MaxOf2(StatMeasure(before[l.exerciseId], Duration), Measure(l, Duration))
    ensures StatsFor(before[l.exerciseId := st], done + [l])
  {
    var after := before[l.exerciseId := st];
    var logs := done + [l];
    ExerciseIdsSnoc(done, l);
    assert after.Keys == ExerciseIds(logs);
    forall ex | ex in after
      ensures ex in ExerciseIds(logs) && EntryFor(after[ex], logs, ex)
    {
      if ex == l.exerciseId {
        GrownEntry(before[ex], done, l, st);
      } else {
        Unchanged(done, l, ex);
      }
    }
  }

  lemma GrownEntry(was: Stat, done: seq<SetLog>, l: SetLog, st: Stat)
    requires l.exerciseId in ExerciseIds(done) && EntryFor(was, done, l.exerciseId)
    requires st.weight == was.weight
    requires StatMeasure(st, Reps) == MaxOf2(StatMeasure(was, Reps), Measure(l, Reps))
    requires StatMeasure(st, Duration) == MaxOf2(StatMeasure(was, Duration), Measure(l, Duration))
    ensures l.exerciseId in ExerciseIds(done + [l])
    ensures EntryFor(st, done + [l], l.exerciseId)
  {
    var logs := done + [l];
    var ex := l.exerciseId;
    assert logs[..|done|] == done;
    MaxSnoc(MeasuresOf(done, ex, Reps), Measure(l, Reps));
    MaxSnoc(MeasuresOf(done, ex, Duration), Measure(l, Duration));
  }

  /** A log of another exercise changes nothing about `other`. */
  lemma Unchanged(done: seq<SetLog>, l: SetLog, other: string)
    requires other in ExerciseIds(done) && other != l.exerciseId
    ensures other in ExerciseIds(done + [l])
    ensures Best(done + [l], other, Reps) == Best(done, other, Reps)
    ensures Best(done + [l], other, Duration) == Best(done, other, Duration)
    ensures FirstLogOf(done + [l], other) == FirstLogOf(done, other)
  {
    var logs := done + [l];
    assert logs[..|done|] == done;
    assert MeasuresOf(logs, other, Reps) == MeasuresOf(done, other, Reps) + [];
    assert MeasuresOf(logs, other, Duration) == MeasuresOf(done, other, Duration) + [];
    assert MeasuresOf(done, other, Reps) + [] == MeasuresOf(done, other, Reps);
    assert MeasuresOf(done, other, Duration) + [] == MeasuresOf(done, other, Duration);
  }

  function MaxOf2(a: int, b: int): int
  {
    if b > a then b else a
  }

  /** The icon beside reps or seconds. */
  datatype Trend = NoIcon | Up | Down | Flat

  /** `lastStats[exerciseId]?.[type] || 0`. */
  function LastBest(stats: map<string, Stat>, ex: string, m: Metric): int
  {
    if ex in stats then StatMeasure(stats[ex], m) else 0
  }

  /** Read against the earlier logs: the value an arrow compares with is the
      best over the exercise's earlier logs, and 0 for an exercise without one. */
  lemma LastBestOfHistory(stats: map<string, Stat>, prevLogs: seq<SetLog>, ex: string, m: Metric)
    requires StatsFor(stats, prevLogs)
    ensures ex in ExerciseIds(prevLogs) ==> LastBest(stats, ex, m) == Best(prevLogs, ex, m)
    ensures ex !in ExerciseIds(prevLogs) ==> LastBest(stats, ex, m) == 0
  {
  }

  /** `renderProgressIcon`. */
  function ProgressIcon(stats: map<string, Stat>, ex: string, m: Metric, current: int): (t: Trend)
    ensures t == NoIcon <==> current == 0
    ensures t == Up <==> current != 0 && current > LastBest(stats, ex, m)
    ensures t == Down <==> current != 0 && current < LastBest(stats, ex, m) && LastBest(stats, ex, m) > 0
    ensures t == Flat <==> current != 0 && current <= LastBest(stats, ex, m)
                           && (current == LastBest(stats, ex, m) || LastBest(stats, ex, m) <= 0)
  {
    var last := LastBest(stats, ex, m);
    if current == 0 then NoIcon
    else if current > last then Up
    else if current < last && last > 0 then Down
    else Flat
  }

  /** Read against the earlier logs themselves: the arrow points up exactly for a
      new record, points down exactly when some earlier set was better and the
      best is positive, and never points down for an exercise without history. */
  lemma ProgressAgainstHistory(stats: map<string, Stat>, prevLogs: seq<SetLog>, ex: string, m: Metric, current: int)
    requires StatsFor(stats, prevLogs)
    ensures ex in ExerciseIds(prevLogs) ==>
              (ProgressIcon(stats, ex, m, current) == Up <==>
                 current != 0 && forall j :: 0 <= j < |prevLogs| && prevLogs[j].exerciseId == ex ==> Measure(prevLogs[j], m) < current)
    ensures ex !in ExerciseIds(prevLogs) ==>
              (ProgressIcon(stats, ex, m, current) == Up <==> current > 0)
              && ProgressIcon(stats, ex, m, current) != Down
    ensures ProgressIcon(stats, ex, m, current) == Down ==>
              exists j :: 0 <= j < |prevLogs| && prevLogs[j].exerciseId == ex && Measure(prevLogs[j], m) > current
    ensures ex in ExerciseIds(prevLogs) ==>
              (ProgressIcon(stats, ex, m, current) == Down <==>
                 current != 0 && Best(prevLogs, ex, m) > 0
                 && exists j :: 0 <= j < |prevLogs| && prevLogs[j].exerciseId == ex && Measure(prevLogs[j], m) > current)
  {
    if ex in ExerciseIds(prevLogs) {
      BestIsMaximum(prevLogs, ex, m);
      LastBestOfHistory(stats, prevLogs, ex, m);
    } else {
      ExerciseIdsMembership(prevLogs, ex);
    }
  }

  /** `toggleBlockFinish`: the set with `blockId`'s membership flipped. */
  function Toggled(finished: set<string>, blockId: string): (r: set<string>)
    ensures blockId in r <==> blockId !in finished
    ensures forall id :: id != blockId ==> (id in r <==> id in finished)
  {
    if blockId in finished then finished - {blockId} else finished + {blockId}
  }

  /** Toggling the same block twice restores the marks. */
  lemma ToggleTwice(finished: set<string>, blockId: string)
    ensures Toggled(Toggled(finished, blockId), blockId) == finished
  {
  }

  /** The record `addExerciseToBlock` inserts. */
  function FirstSet(exerciseId: string, blockId: string): SetLog
  {
    SetLog(blockId, exerciseId, 1, None, None, None, None, false)
  }

  /** The record `addSet` inserts after `log`. */
  function AppendedSet(log: SetLog): (r: SetLog)
    ensures r.setNumber == log.setNumber + 1
    ensures !r.isCompleted && r.reps.None? && r.durationSeconds.None?
    ensures r.(setNumber := log.setNumber, reps := log.reps, durationSeconds := log.durationSeconds,
               isCompleted := log.isCompleted) == log
  {
    SetLog(log.blockId, log.exerciseId, log.setNumber + 1, None, log.weight, None, log.resistanceLevel, false)
  }

  /** `n` presses of "+ Append Set", each on the newest set. */
  function AppendTimes(log: SetLog, n: nat): SetLog
  {
    if n == 0 then log else AppendedSet(AppendTimes(log, n - 1))
  }

  /** Appending sets numbers them consecutively, keeps block, exercise, weight and
      resistance, and starts each new set open with no reps or seconds. */
  lemma {:induction false} AppendChain(log: SetLog, n: nat)
    ensures AppendTimes(log, n).setNumber == log.setNumber + n
    ensures AppendTimes(log, n).blockId == log.blockId
    ensures AppendTimes(log, n).exerciseId == log.exerciseId
    ensures AppendTimes(log, n).weight == log.weight
    ensures AppendTimes(log, n).resistanceLevel == log.resistanceLevel
    ensures n > 0 ==> !AppendTimes(log, n).isCompleted
                      && AppendTimes(log, n).reps.None? && AppendTimes(log, n).durationSeconds.None?
  {
    if n > 0 {
      AppendChain(log, n - 1);
    }
  }

  /** An exercise added to a block and then extended `n` times is at set `n + 1`,
      in that block, with no weight carried over. */
  lemma NewExerciseChain(exerciseId: string, blockId: string, n: nat)
    ensures AppendTimes(FirstSet(exerciseId, blockId), n).setNumber == n + 1
    ensures AppendTimes(FirstSet(exerciseId, blockId), n).blockId == blockId
    ensures AppendTimes(FirstSet(exerciseId, blockId), n).exerciseId == exerciseId
    ensures AppendTimes(FirstSet(exerciseId, blockId), n).weight.None?
    ensures !AppendTimes(FirstSet(exerciseId, blockId), n).isCompleted
  {
    AppendChain(FirstSet(exerciseId, blockId), n);
  }

  /** An entry of the exercise catalogue. */
  datatype Exercise = Exercise(id: string, name: string, family: string)

  /** The picker's filter for a session type. */
  predicate Offered(sessionType: string, family: string)
  {
    if sessionType == "Push" then StartsWith(family, "Push") || family == "Skill"
    else if sessionType == "Pull" then StartsWith(family, "Pull") || family == "Skill"
    else true
  }

  /** The exercises the picker lists, in catalogue order. */
  function PickerList(exercises: seq<Exercise>, sessionType: string): (r: seq<Exercise>)
    ensures |r| <= |exercises|
    ensures forall e :: e in r <==> e in exercises && Offered(sessionType, e.family)
    ensures sessionType != "Push" && sessionType != "Pull" ==> r == exercises
  {
    if exercises == [] then []
    else
      var e := exercises[0];
      var rest := PickerList(exercises[1..], sessionType);
      assert exercises == [e] + exercises[1..];
      if Offered(sessionType, e.family) then [e] + rest else rest
  }

  /** Skill exercises are listed for every session type; a Push session never
      lists a Pull family and a Pull session never a Push family. */
  lemma PickerFamilies(sessionType: string, family: string)
    ensures Offered(sessionType, "Skill")
    ensures StartsWith(family, "Pull") ==> !Offered("Push", family) && Offered("Pull", family)
    ensures StartsWith(family, "Push") ==> !Offered("Pull", family) && Offered("Push", family)
  {
    if StartsWith(family, "Pull") {
      assert family[2] == 'l';
    }
    if StartsWith(family, "Push") {
      assert family[2] == 's';
    }
  }

  /** The logger's own state: the blocks marked finished and the previous bests. */
  class FitnessLogger {
    var finishedBlocks: set<string>
    var lastStats: map<string, Stat>

    constructor ()
      ensures finishedBlocks == {} && lastStats == map[]
    {
      finishedBlocks, lastStats := {}, map[];
    }

    method ToggleBlockFinish(blockId: string)
      modifies this
      ensures finishedBlocks == Toggled(old(finishedBlocks), blockId)
      ensures lastStats == old(lastStats)
    {
      var newSet := finishedBlocks;
      if blockId in newSet {
        newSet := newSet - {blockId};
      } else {
        newSet := newSet + {blockId};
      }
      finishedBlocks := newSet;
    }

    /** The "last best" part of `fetchData`: `history` is the store's logs in
        newest-first order; with no exercise in the session, nothing is fetched
        and the previous stats stay. */
    method LoadLastStats(blocks: seq<Block>, history: seq<PastLog>, sessionDate: int)
      modifies this
      ensures finishedBlocks == old(finishedBlocks)
      ensures SessionExerciseIds(blocks) == {} ==> lastStats == old(lastStats)
      ensures SessionExerciseIds(blocks) != {} ==>
                StatsFor(lastStats, PreviousLogs(history, SessionExerciseIds(blocks), sessionDate))
      ensures SessionExerciseIds(blocks) != {} ==>
                forall ex :: ex in lastStats <==> (ex in SessionExerciseIds(blocks)
                  && exists k :: 0 <= k < |history| && history[k].log.exerciseId == ex && history[k].sessionDate < sessionDate)
    {
      var exIds := SessionExerciseIds(blocks);
      if exIds != {} {
        var prevLogs := PreviousLogs(history, exIds, sessionDate);
        var stats := BuildLastStats(prevLogs);
        lastStats := stats;
        forall ex {
          PreviousExercises(history, exIds, sessionDate, ex);
        }
      }
    }

    function ProgressFor(ex: string, m: Metric, current: int): Trend
      reads this
    {
      ProgressIcon(lastStats, ex, m, current)
    }
  }
}
