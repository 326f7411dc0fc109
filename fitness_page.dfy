/** The fitness page: the training streak, the choice of the next training type,
    the session still in progress and the count of completed sessions.

    Calendar days are integer day numbers and `weekday` gives the weekday of a day
    (0 is Sunday), so "i days before today" is `today - i`.  Times are integer
    milliseconds. */
module Fitness {
  import opened Common

  /** A row of `fitness_sessions` as the page reads it. */
  datatype Session = Session(
    date: int,
    kind: string,
    startMs: Option<int>,
    endMs: Option<int>,
    isCompleted: bool)

  /** The page fetches at most this many sessions, newest first. */
  const FetchLimit: nat := 10
  /** The streak looks back over at most this many days, today included. */
  const StreakWindow: nat := 30
  /** 30 minutes: a session this long or longer makes its day count. */
  const MinQualifyingMs: int := 30 * 60 * 1000

  /** The rows the page works on: the first `FetchLimit` of the store's
      newest-first ordering. */
  function Fetched(rows: seq<Session>): (r: seq<Session>)
    ensures |r| <= FetchLimit
    ensures |rows| <= FetchLimit ==> r == rows
    ensures |rows| > FetchLimit ==> |r| == FetchLimit
    ensures forall j :: 0 <= j < |r| ==> r[j] == rows[j]
  {
    if |rows| <= FetchLimit then rows else rows[..FetchLimit]
  }

  /** Position of the first fetched session dated `day`. */
  function FirstOnDate(sessions: seq<Session>, day: int): (k: Option<nat>)
    ensures k.Some? ==> k.value < |sessions| && sessions[k.value].date == day
    ensures k.Some? ==> forall j :: 0 <= j < k.value ==> sessions[j].date != day
    ensures k.None? ==> forall j :: 0 <= j < |sessions| ==> sessions[j].date != day
  {
    FindFirst(sessions, (s: Session) => s.date == day)
  }

  /** The session `find(s => s.date === dStr)` returns. */
  function SessionOn(sessions: seq<Session>, day: int): Option<Session>
  {
    var k := FirstOnDate(sessions, day);
    if k.Some? then Some(sessions[k.value]) else None
  }

  /** Length of a session in milliseconds; 0 when there is no session or one of
      its two timestamps is missing. */
  function DurationMs(session: Option<Session>): int
  {
    if session.Some? && session.value.startMs.Some? && session.value.endMs.Some?
    then session.value.endMs.value - session.value.startMs.value
    else 0
  }

  /** A day keeps the streak going when it is a Sunday or its first session
      lasted at least 30 minutes. */
  predicate Qualifies(sessions: seq<Session>, weekday: int -> int, day: int): (r: bool)
    ensures weekday(day) == 0 ==> r
    ensures weekday(day) != 0 ==>
              (r <==> exists k :: 0 <= k < |sessions| && sessions[k].date == day
                                  && (forall j :: 0 <= j < k ==> sessions[j].date != day)
                                  && sessions[k].startMs.Some? && sessions[k].endMs.Some?
                                  && sessions[k].endMs.value - sessions[k].startMs.value >= MinQualifyingMs)
  {
    weekday(day) == 0 || DurationMs(SessionOn(sessions, day)) >= MinQualifyingMs
  }

  /** The day `i` days before `day` qualifies. */
  predicate QualifiesBack(sessions: seq<Session>, weekday: int -> int, day: int, i: int)
  {
    Qualifies(sessions, weekday, day - i)
  }

  /** Number of consecutive qualifying days starting `i` days before `today`
      and going backwards, stopping at the edge of the 30-day window. */
  function RunAt(sessions: seq<Session>, weekday: int -> int, today: int, i: nat): (r: nat)
    ensures i + r <= StreakWindow || r == 0
    decreases StreakWindow - i
  {
    if i >= StreakWindow || !QualifiesBack(sessions, weekday, today, i) then 0
    else 1 + RunAt(sessions, weekday, today, i + 1)
  }

  /** The run really is a run: its days all qualify and, short of the window,
      the day just past it does not. */
  lemma {:induction false} RunAtIsRun(sessions: seq<Session>, weekday: int -> int, today: int, i: nat)
    ensures forall k :: i <= k < i + RunAt(sessions, weekday, today, i) ==> QualifiesBack(sessions, weekday, today, k)
    ensures i + RunAt(sessions, weekday, today, i) < StreakWindow ==>
              !QualifiesBack(sessions, weekday, today, i + RunAt(sessions, weekday, today, i))
    decreases StreakWindow - i
  {
    if i < StreakWindow && QualifiesBack(sessions, weekday, today, i) {
      RunAtIsRun(sessions, weekday, today, i + 1);
    }
  }

  /** The fitness streak shown on the page. */
  function Streak(sessions: seq<Session>, weekday: int -> int, today: int): (r: nat)
    ensures r <= StreakWindow
    ensures forall i :: 0 <= i < r ==> QualifiesBack(sessions, weekday, today, i)
    ensures r < StreakWindow ==> !QualifiesBack(sessions, weekday, today, r)
  {
    RunAtIsRun(sessions, weekday, today, 0);
    RunAt(sessions, weekday, today, 0)
  }

  /** The streak loop of the page: walk back from today, count qualifying days,
      stop at the first day that does not qualify or after 30 days. */
  method ComputeStreak(sessions: seq<Session>, weekday: int -> int, today: int) returns (streak: nat)
    ensures streak == Streak(sessions, weekday, today)
  {
    streak := 0;
    var i := 0;
    while i < StreakWindow
      invariant 0 <= i <= StreakWindow && streak == i
      invariant forall k :: 0 <= k < i ==> QualifiesBack(sessions, weekday, today, k)
    {
      var day := today - i;
      var isSunday := weekday(day) == 0;
      var session := SessionOn(sessions, day);
      var duration := DurationMs(session);
      if isSunday || duration >= MinQualifyingMs {
        assert QualifiesBack(sessions, weekday, today, i);
        streak := streak + 1;
      } else {
        assert !QualifiesBack(sessions, weekday, today, i);
        break;
      }
      i := i + 1;
    }
    StreakIsLongestRun(sessions, weekday, today, streak);
  }

  /** The streak is the one number n that is at most 30, such that the n days
      ending today qualify and, short of 30, the day before them does not. */
  lemma StreakIsLongestRun(sessions: seq<Session>, weekday: int -> int, today: int, n: nat)
    ensures n == Streak(sessions, weekday, today) <==>
              && n <= StreakWindow
              && (forall i :: 0 <= i < n ==> QualifiesBack(sessions, weekday, today, i))
              && (n < StreakWindow ==> !QualifiesBack(sessions, weekday, today, n))
  {
    var r := Streak(sessions, weekday, today);
    RunAtIsRun(sessions, weekday, today, 0);
    if n < r {
      assert QualifiesBack(sessions, weekday, today, n);
    } else if r < n <= StreakWindow {
      assert !QualifiesBack(sessions, weekday, today, r);
    }
  }

  /** A Sunday counts whether or not a session exists for it. */
  lemma {:induction false} SundayQualifies(sessions: seq<Session>, weekday: int -> int, day: int)
    requires weekday(day) == 0
    ensures Qualifies(sessions, weekday, day)
    ensures Streak(sessions, weekday, day) >= 1
  {
  }

  /** A weekday without a session, or with a session lacking a timestamp, or one
      shorter than 30 minutes, ends the streak there. */
  lemma {:induction false} ShortDayEndsStreak(sessions: seq<Session>, weekday: int -> int, today: int, i: nat)
    requires i < StreakWindow
    requires forall k :: 0 <= k < i ==> QualifiesBack(sessions, weekday, today, k)
    requires weekday(today - i) != 0
    requires var s := SessionOn(sessions, today - i);
             s.None? || s.value.startMs.None? || s.value.endMs.None?
             || s.value.endMs.value - s.value.startMs.value < MinQualifyingMs
    ensures Streak(sessions, weekday, today) == i
  {
    StreakIsLongestRun(sessions, weekday, today, i);
  }

  /** Only the first session of a date is looked at: changing any later row
      leaves every day's verdict as it was. */
  lemma LaterRowOfSameDateIgnored(sessions: seq<Session>, weekday: int -> int, k: nat, j: nat, x: Session)
    requires k < j < |sessions|
    requires sessions[k].date == sessions[j].date
    ensures Qualifies(sessions[j := x], weekday, sessions[j].date) == Qualifies(sessions, weekday, sessions[j].date)
  {
    var d := sessions[j].date;
    var t := sessions[j := x];
    assert t[k].date == d;
    var ka, kb := FirstOnDate(sessions, d), FirstOnDate(t, d);
    assert ka.Some? && ka.value <= k;
    assert kb.Some? && kb.value <= k;
    assert t[ka.value] == sessions[ka.value] && t[kb.value] == sessions[kb.value];
    assert ka == kb;
    assert SessionOn(t, d) == SessionOn(sessions, d);
  }

  /** Rows beyond the tenth never reach the streak: whatever follows the first
      ten rows, the streak is the same. */
  lemma RowsPastLimitIgnored(rows: seq<Session>, extra: seq<Session>, weekday: int -> int, today: int)
    requires |rows| >= FetchLimit
    ensures Streak(Fetched(rows + extra), weekday, today) == Streak(Fetched(rows), weekday, today)
  {
    assert Fetched(rows + extra) == Fetched(rows);
  }

  /** The dates of the fetched sessions. */
  function Dates(sessions: seq<Session>): set<int>
  {
    set j | 0 <= j < |sessions| :: sessions[j].date
  }

  lemma {:induction false} DatesBound(sessions: seq<Session>)
    ensures |Dates(sessions)| <= |sessions|
  {
    if sessions != [] {
      var front := sessions[..|sessions| - 1];
      DatesBound(front);
      assert Dates(sessions) == Dates(front) + {sessions[|sessions| - 1].date} by {
        forall d | d in Dates(sessions) ensures d in Dates(front) + {sessions[|sessions| - 1].date} {
          var j :| 0 <= j < |sessions| && sessions[j].date == d;
          if j < |front| {
            assert front[j] == sessions[j];
          }
        }
        forall d | d in Dates(front) ensures d in Dates(sessions) {
          var j :| 0 <= j < |front| && front[j].date == d;
          assert sessions[j] == front[j];
        }
      }
    }
  }

  /** The day `k` days before `today`. */
  function DayBack(today: int, k: int): int
  {
    today - k
  }

  /** The first `n` days of the walk. */
  function Window(today: int, n: nat): set<int>
  {
    set k | 0 <= k < n :: DayBack(today, k)
  }

  lemma {:induction false} WindowSize(today: int, n: nat)
    ensures |Window(today, n)| == n
  {
    if n > 0 {
      WindowSize(today, n - 1);
      assert Window(today, n) == Window(today, n - 1) + {DayBack(today, n - 1)};
      assert DayBack(today, n - 1) !in Window(today, n - 1);
    }
  }

  /** The Sundays among the first `n` days of the walk. */
  function SundaysIn(weekday: int -> int, today: int, n: nat): set<int>
  {
    set k | 0 <= k < n && weekday(DayBack(today, k)) == 0 :: DayBack(today, k)
  }

  /** Every non-Sunday day of the streak needs a fetched session of its own
      date, so the streak never exceeds the number of fetched rows plus the
      Sundays it spans: with ten rows, a month of daily training still shows
      a streak of at most ten plus its Sundays. */
  lemma StreakCappedByRows(sessions: seq<Session>, weekday: int -> int, today: int)
    ensures Streak(sessions, weekday, today)
            <= |sessions| + |SundaysIn(weekday, today, Streak(sessions, weekday, today))|
  {
    var n := Streak(sessions, weekday, today);
    RunAtIsRun(sessions, weekday, today, 0);
    WindowCovered(sessions, weekday, today, n);
    WindowSize(today, n);
    DatesBound(sessions);
    SubsetCard(Window(today, n), Dates(sessions) + SundaysIn(weekday, today, n));
  }

  /** Each day of a qualifying run is a Sunday or the date of a fetched row. */
  lemma WindowCovered(sessions: seq<Session>, weekday: int -> int, today: int, n: nat)
    requires forall k :: 0 <= k < n ==> QualifiesBack(sessions, weekday, today, k)
    ensures Window(today, n) <= Dates(sessions) + SundaysIn(weekday, today, n)
  {
    forall d | d in Window(today, n)
      ensures d in Dates(sessions) + SundaysIn(weekday, today, n)
    {
      var k :| 0 <= k < n && d == DayBack(today, k);
      assert QualifiesBack(sessions, weekday, today, k);
      if weekday(d) != 0 {
        var f := FirstOnDate(sessions, d);
        assert f.Some?;
        assert sessions[f.value].date == d;
      }
    }
  }

  /** On the page, at most ten rows are fetched. */
  lemma PageStreakCap(rows: seq<Session>, weekday: int -> int, today: int)
    ensures Streak(Fetched(rows), weekday, today)
            <= FetchLimit + |SundaysIn(weekday, today, Streak(Fetched(rows), weekday, today))|
  {
    StreakCappedByRows(Fetched(rows), weekday, today);
  }

  lemma SubsetCard(a: set<int>, b: set<int>)
    requires a <= b
    ensures |a| <= |b|
  {
    assert b == a + (b - a);
  }

  /** The session in progress: the first fetched one not yet completed. */
  function ActiveSession(sessions: seq<Session>): (r: Option<Session>)
    ensures r.None? <==> forall j :: 0 <= j < |sessions| ==> sessions[j].isCompleted
    ensures r.Some? ==> exists k :: 0 <= k < |sessions| && sessions[k] == r.value && !r.value.isCompleted
                                    && forall j :: 0 <= j < k ==> sessions[j].isCompleted
  {
    var k := FindFirst(sessions, (s: Session) => !s.isCompleted);
    if k.Some? then Some(sessions[k.value]) else None
  }

  /** The "Completed ... Logs" figure. */
  function CompletedCount(sessions: seq<Session>): (n: nat)
    ensures n <= |sessions|
    ensures n == |sessions| <==> forall j :: 0 <= j < |sessions| ==> sessions[j].isCompleted
    ensures n == 0 <==> forall j :: 0 <= j < |sessions| ==> !sessions[j].isCompleted
  {
    Count(sessions, (s: Session) => s.isCompleted)
  }

  /** The completed figure adds up over any split of the sessions, and a single
      session contributes 1 exactly when it is completed: it is the number of
      completed sessions. */
  lemma CompletedCountAppend(a: seq<Session>, b: seq<Session>, s: Session)
    ensures CompletedCount(a + b) == CompletedCount(a) + CompletedCount(b)
    ensures CompletedCount([s]) == if s.isCompleted then 1 else 0
  {
    CountAppend(a, b, (x: Session) => x.isCompleted);
  }

  /** There is no session in progress exactly when every fetched session is
      completed. */
  lemma NoActiveIffAllCompleted(sessions: seq<Session>)
    ensures ActiveSession(sessions).None? <==> CompletedCount(sessions) == |sessions|
  {
  }

  const Push := "Push"
  const Pull := "Pull"
  const Rest := "Rest"

  /** The training types offered after the last session's type. */
  function AvailableTypes(last: Option<string>): (r: seq<string>)
    ensures |r| >= 2 && r[|r| - 1] == Rest
    ensures forall t :: t in r ==> t == Push || t == Pull || t == Rest
    ensures last == Some(Push) ==> Push !in r && Pull in r
    ensures last == Some(Pull) ==> Pull !in r && Push in r
    ensures last != Some(Push) && last != Some(Pull) ==> r == [Push, Pull, Rest]
  {
    if last.None? || last.value == Rest then [Push, Pull, Rest]
    else if last.value == Push then [Pull, Rest]
    else if last.value == Pull then [Push, Rest]
    else [Push, Pull, Rest]
  }

  /** Choosing each session from the types offered after the previous one never
      gives Push twice in a row nor Pull twice in a row; only Rest can repeat.
      `history` is oldest first. */
  lemma {:induction false} NoPushPullRepeat(history: seq<string>)
    requires forall k :: 0 < k < |history| ==> history[k] in AvailableTypes(Some(history[k - 1]))
    ensures forall k :: 0 < k < |history| && history[k] == history[k - 1] ==> history[k] == Rest
  {
    forall k | 0 < k < |history| && history[k] == history[k - 1]
      ensures history[k] == Rest
    {
      var before := history[k - 1];
      assert history[k] in AvailableTypes(Some(before));
    }
  }

  function Join(parts: seq<string>, sep: string): string
  {
    if |parts| == 0 then ""
    else if |parts| == 1 then parts[0]
    else parts[0] + sep + Join(parts[1..], sep)
  }

  /** The "Ready for" status: "Rest Day" exactly on Sundays, since no list of
      offered types reads "Rest Day". */
  function ReadyFor(todayIsSunday: bool, last: Option<string>): (r: string)
    ensures todayIsSunday <==> r == "Rest Day"
  {
    if todayIsSunday then "Rest Day"
    else
      TypesText(last);
      Join(AvailableTypes(last), " / ")
  }

  /** The offered types as the page writes them. */
  lemma TypesText(last: Option<string>)
    ensures Join(AvailableTypes(last), " / ") ==
              if last == Some(Push) then "Pull / Rest"
              else if last == Some(Pull) then "Push / Rest"
              else "Push / Pull / Rest"
  {
    if last == Some(Push) {
      JoinTwo(Pull);
    } else if last == Some(Pull) {
      JoinTwo(Push);
    } else {
      JoinAll();
    }
  }

  /** On a Sunday the status is "Rest Day" whatever the last type; otherwise it
      lists the offered types. */
  lemma ReadyForText(todayIsSunday: bool, last: Option<string>)
    ensures todayIsSunday ==> ReadyFor(todayIsSunday, last) == "Rest Day"
    ensures !todayIsSunday && last == Some(Push) ==> ReadyFor(todayIsSunday, last) == "Pull / Rest"
    ensures !todayIsSunday && last == Some(Pull) ==> ReadyFor(todayIsSunday, last) == "Push / Rest"
    ensures !todayIsSunday && last != Some(Push) && last != Some(Pull) ==>
              ReadyFor(todayIsSunday, last) == "Push / Pull / Rest"
  {
    TypesText(last);
  }

  /** A type followed by Rest reads "<type> / Rest". */
  lemma JoinTwo(first: string)
    ensures Join([first, Rest], " / ") == first + " / Rest"
  {
    assert Join([first, Rest], " / ") == first + " / " + Join([Rest], " / ");
  }

  /** All three types read "Push / Pull / Rest". */
  lemma JoinAll()
    ensures Join([Push, Pull, Rest], " / ") == "Push / Pull / Rest"
  {
    JoinTwo(Pull);
    assert Join([Push, Pull, Rest], " / ") == Push + " / " + Join([Pull, Rest], " / ");
  }

  /** The page's fetched state, as `fetchData` leaves it. */
  class FitnessDashboard {
    var sessions: seq<Session>
    var activeSession: Option<Session>
    var lastSessionType: Option<string>
    var fitnessStreak: nat

    constructor ()
      ensures sessions == [] && activeSession == None && lastSessionType == None && fitnessStreak == 0
    {
      sessions, activeSession, lastSessionType, fitnessStreak := [], None, None, 0;
    }

    /** `fetchData`: `rows` is the store's newest-first ordering of sessions, or
        None when a query fails, in which case nothing changes. */
    method Refresh(rows: Option<seq<Session>>, weekday: int -> int, today: int)
      modifies this
      ensures rows.None? ==> (sessions == old(sessions) && activeSession == old(activeSession)
                              && lastSessionType == old(lastSessionType) && fitnessStreak == old(fitnessStreak))
      ensures rows.Some? ==> sessions == Fetched(rows.value)
      ensures rows.Some? ==> activeSession == ActiveSession(sessions)
      ensures rows.Some? ==> lastSessionType == (if |sessions| > 0 then Some(sessions[0].kind) else old(lastSessionType))
      ensures rows.Some? ==> fitnessStreak == Streak(sessions, weekday, today) && fitnessStreak <= StreakWindow
    {
      if rows.Some? {
        var data := Fetched(rows.value);
        sessions := data;
        activeSession := ActiveSession(data);
        if |data| > 0 {
          lastSessionType := Some(data[0].kind);
        }
        fitnessStreak := ComputeStreak(data, weekday, today);
      }
    }

    function ReadyForLabel(todayIsSunday: bool): string
      reads this
    {
      ReadyFor(todayIsSunday, lastSessionType)
    }

    function CompletedLogs(): nat
      reads this
    {
      CompletedCount(sessions)
    }
  }
}
