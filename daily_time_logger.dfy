/** The daily study-time card: a logged total for today, a suggestion summed
    from today's lecture and DPP tracking logs, and a save that never records
    less than the suggestion. Times are whole minutes. */
module DailyTime {
  import opened Common

  /** A row of `tracking_logs`, reduced to what the card reads. */
  datatype TrackingLog = TrackingLog(chapterId: string, date: int, timeTaken: int)

  /** `time_taken` of the rows dated `today`, in order (the `.eq('date', today)`
      query). */
  function TodayMinutes(logs: seq<TrackingLog>, today: int): seq<int>
  {
    if logs == [] then []
    else
      var last := logs[|logs| - 1];
      TodayMinutes(logs[..|logs| - 1], today) + (if last.date == today then [last.timeTaken] else [])
  }

  /** The suggested time: the sum of today's `time_taken`, or 0 when the query
      returned nothing. */
  function SuggestedTime(trackers: Option<seq<TrackingLog>>, today: int): (r: int)
    ensures trackers.None? ==> r == 0
    ensures trackers.Some? && |trackers.value| == 1 ==>
              r == if trackers.value[0].date == today then trackers.value[0].timeTaken else 0
  {
    if trackers.None? then 0
    else
      if |trackers.value| == 1 then
        OneRow(trackers.value[0], today);
        assert trackers.value == [trackers.value[0]];
        Sum(TodayMinutes(trackers.value, today))
      else Sum(TodayMinutes(trackers.value, today))
  }

  /** A single row contributes its time exactly when it is dated today. */
  lemma OneRow(l: TrackingLog, today: int)
    ensures Sum(TodayMinutes([l], today)) == if l.date == today then l.timeTaken else 0
  {
    assert [l][..0] == [];
    if l.date == today {
      assert TodayMinutes([l], today) == [l.timeTaken];
      assert [l.timeTaken][..0] == [];
    } else {
      assert TodayMinutes([l], today) == [];
    }
  }

  /** The suggestion over two batches of rows is the sum of the two suggestions. */
  lemma {:induction false} SuggestedTimeSplits(a: seq<TrackingLog>, b: seq<TrackingLog>, today: int)
    ensures SuggestedTime(Some(a + b), today) == SuggestedTime(Some(a), today) + SuggestedTime(Some(b), today)
  {
    TodayMinutesAppend(a, b, today);
    SumAppend(TodayMinutes(a, today), TodayMinutes(b, today));
  }

  lemma {:induction false} TodayMinutesAppend(a: seq<TrackingLog>, b: seq<TrackingLog>, today: int)
    ensures TodayMinutes(a + b, today) == TodayMinutes(a, today) + TodayMinutes(b, today)
  {
    if b == [] {
      assert a + b == a;
    } else {
      var front := b[..|b| - 1];
      assert (a + b)[..|a + b| - 1] == a + front;
      TodayMinutesAppend(a, front, today);
    }
  }

  /** Rows of other days do not count, and with no row of today the suggestion
      is 0. */
  lemma {:induction false} OtherDaysIgnored(logs: seq<TrackingLog>, today: int)
    requires forall j :: 0 <= j < |logs| ==> logs[j].date != today
    ensures SuggestedTime(Some(logs), today) == 0
  {
    if logs != [] {
      var front := logs[..|logs| - 1];
      assert forall j :: 0 <= j < |front| ==> front[j] == logs[j];
      OtherDaysIgnored(front, today);
      assert TodayMinutes(logs, today) == TodayMinutes(front, today) + [];
      assert TodayMinutes(front, today) + [] == TodayMinutes(front, today);
    }
  }

  /** With non-negative times the suggestion is never negative. */
  lemma {:induction false} SuggestedTimeNonNegative(logs: seq<TrackingLog>, today: int)
    requires forall j :: 0 <= j < |logs| ==> logs[j].timeTaken >= 0
    ensures SuggestedTime(Some(logs), today) >= 0
  {
    if logs != [] {
      var front := logs[..|logs| - 1];
      var last := logs[|logs| - 1];
      assert forall j :: 0 <= j < |front| ==> front[j] == logs[j];
      SuggestedTimeNonNegative(front, today);
      SumAppend(TodayMinutes(front, today), if last.date == today then [last.timeTaken] else []);
    }
  }

  /** `Math.max(newTime, suggestedTime)`: the total a save writes. */
  function SavedTotal(newTime: int, suggestion: int): (r: int)
    ensures r >= newTime && r >= suggestion
    ensures r == newTime || r == suggestion
  {
    if newTime >= suggestion then newTime else suggestion
  }

  /** The condition for the automatic save: the sum exceeds the logged total,
      a missing log counting as 0. */
  predicate NeedsAutoSave(sum: int, logged: Option<int>): (r: bool)
    ensures logged.None? ==> (r <==> sum > 0)
    ensures r ==> forall suggestion :: SavedTotal(sum, suggestion) > OrZero(logged)
  {
    sum > OrZero(logged)
  }

  /** The card's two state fields. */
  class DailyTimeLogger {
    var time: int
    var suggestedTime: int

    constructor ()
      ensures time == 0 && suggestedTime == 0
    {
      time, suggestedTime := 0, 0;
    }

    /** `handleSave`: writes the larger of `newTime` and the suggestion the
        handler sees; the shown time follows only when the write succeeds. */
    method Save(newTime: int, suggestion: int, ok: bool) returns (upserted: int)
      modifies this
      ensures upserted == SavedTotal(newTime, suggestion)
      ensures ok ==> time == upserted
      ensures !ok ==> time == old(time)
      ensures suggestedTime == old(suggestedTime)
    {
      upserted := SavedTotal(newTime, suggestion);
      if ok {
        time := upserted;
      }
    }

    /** The Save button: `handleSave()` with the current time and suggestion. */
    method SaveClicked(ok: bool) returns (upserted: int)
      modifies this
      ensures upserted >= old(time) && upserted >= old(suggestedTime)
      ensures upserted == old(time) || upserted == old(suggestedTime)
      ensures time == (if ok then upserted else old(time))
      ensures suggestedTime == old(suggestedTime)
    {
      upserted := Save(time, suggestedTime, ok);
    }

    /** Typing in the field: `parseInt(value) || 0`, with `input` None when the
        text is not a number. */
    method Edit(input: Option<int>)
      modifies this
      ensures time == OrZero(input)
      ensures suggestedTime == old(suggestedTime)
    {
      time := OrZero(input);
    }

    /** `fetchTodayData`: `logged` is today's `daily_logs` total if the row
        exists, `trackers` the tracking rows the query returned, `saveOk` the
        outcome of the automatic save. The automatic save is handed the sum as
        its new time and, as the handler does, the suggestion held when the
        fetch began. Returns the total written, if a save was made. */
    method FetchTodayData(logged: Option<int>, trackers: Option<seq<TrackingLog>>, today: int, saveOk: bool)
      returns (upserted: Option<int>)
      modifies this
      ensures suggestedTime == SuggestedTime(trackers, today)
      ensures upserted.Some? <==> NeedsAutoSave(SuggestedTime(trackers, today), logged)
      ensures upserted.Some? ==> upserted.value == SavedTotal(SuggestedTime(trackers, today), old(suggestedTime))
      ensures upserted.Some? ==> upserted.value >= SuggestedTime(trackers, today) && upserted.value > OrZero(logged)
      ensures time == if upserted.Some? && saveOk then upserted.value
                      else if logged.Some? then logged.value
                      else old(time)
    {
      var captured := suggestedTime;
      if logged.Some? {
        time := logged.value;
      }
      var sum := SuggestedTime(trackers, today);
      suggestedTime := sum;
      upserted := None;
      if sum > OrZero(logged) {
        var written := Save(sum, captured, saveOk);
        upserted := Some(written);
      }
    }
  }
}
