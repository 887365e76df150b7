/** `sendWarning`: one tick of the scheduling loop, taking the state `(lastToday, last_hour_get,
    slots)` and the inputs `(day, hour, uvIndex)` and producing the next state and the actions. */
module Scheduler {
  import opened Config
  import opened Registry
  import opened Device

  /** Day of the week as the NTP client reports it, 0 = Sunday. */
  type Weekday = d: int | 0 <= d < 7

  /** Hour of the day as the NTP client reports it. */
  type Hour = h: int | 0 <= h < 24

  /** The daily warning condition: not yet warned on this weekday, and the reading is high. */
  predicate Fires(s: State, day: Weekday, uv: int) {
    day != s.lastToday && uv >= UVWARNING
  }

  /** The weekend "correction" applied at the end of every tick: when the stored warning day equals
      `(day + 1) % 6`, it is overwritten with today. `day + 1` is positive, so the C remainder and
      Dafny's agree. */
  function Corrected(day: Weekday, last: int): (r: int)
    ensures r == last || r == day
    ensures r != last <==> last == (day + 1) % 6
  {
    if (day + 1) % 6 == last then day else last
  }

  /** One warning message to each registered id, in slot order. */
  function Warnings(slots: seq<string>): (r: seq<Action>)
    ensures Recipients(r) == Subscribers(slots)
    ensures Uploads(r) == 0 && Persists(r) == 0 && Typings(r) == 0
    ensures forall a :: a in r ==> a.Send? && a.msg == UvTooHighText
  {
    if |slots| == 0 then []
    else if slots[0] == "" then Warnings(slots[1..])
    else [Send(slots[0], UvTooHighText)] + Warnings(slots[1..])
  }

  /** The hourly rule: an upload attempt exactly when the hour differs from the last one seen. */
  function Hourly(s: State, hour: Hour, uv: int): (r: seq<Action>)
    ensures Uploads(r) == (if hour != s.lastHour then 1 else 0)
    ensures Recipients(r) == [] && Persists(r) == 0 && Typings(r) == 0
    ensures forall a :: a in r ==> a == Upload(uv)
  {
    if hour != s.lastHour then [Upload(uv)] else []
  }

  /** The daily rule's actions: write the configuration carrying the new warning day, warn every
      subscriber, then upload the reading regardless of the hour. */
  function Daily(s: State, day: Weekday, uv: int): (r: seq<Action>)
    ensures Uploads(r) == (if Fires(s, day, uv) then 1 else 0)
    ensures Persists(r) == (if Fires(s, day, uv) then 1 else 0)
    ensures Fires(s, day, uv) ==> |r| > 0 && r[0] == Persist(Save(s.(lastToday := day))) && r[|r| - 1] == Upload(uv)
    ensures Recipients(r) == (if Fires(s, day, uv) then Subscribers(s.slots) else [])
    ensures Typings(r) == 0
    ensures forall a :: a in r ==> (a.Upload? ==> a.value == uv) && (a.Send? ==> a.msg == UvTooHighText)
  {
    if Fires(s, day, uv) then
      var w := Warnings(s.slots);
      LogAppend([Persist(Record(day, s.slots))], w);
      LogAppend([Persist(Record(day, s.slots))] + w, [Upload(uv)]);
      [Persist(Record(day, s.slots))] + w + [Upload(uv)]
    else []
  }

  /** One tick: the hourly rule, then the daily rule, then the weekend correction. */
  function Tick(s: State, day: Weekday, hour: Hour, uv: int): (r: Step)
    ensures r.state.slots == s.slots && r.state.lastHour == hour
    ensures r.state.lastToday == s.lastToday || r.state.lastToday == day
    ensures Fires(s, day, uv) ==> r.state.lastToday == day
    ensures !Fires(s, day, uv) ==> r.state.lastToday == Corrected(day, s.lastToday)
    ensures (hour != s.lastHour) <==> (|r.actions| > 0 && r.actions[0] == Upload(uv))
  {
    var today := if Fires(s, day, uv) then day else s.lastToday;
    Step(State(Corrected(day, today), hour, s.slots), Hourly(s, hour, uv) + Daily(s, day, uv))
  }

  /** What a tick asks of the outside world: one upload per new hour and one per warning, one
      configuration write carrying today per warning, warnings to exactly the subscribers in slot
      order, the warning tick closed by an upload, and nothing else. */
  lemma TickLog(s: State, day: Weekday, hour: Hour, uv: int)
    ensures var acts := Tick(s, day, hour, uv).actions;
      && Uploads(acts) == (if hour != s.lastHour then 1 else 0) + (if Fires(s, day, uv) then 1 else 0)
      && Persists(acts) == (if Fires(s, day, uv) then 1 else 0)
      && (Fires(s, day, uv) ==> Persist(Save(s.(lastToday := day))) in acts)
      && (Fires(s, day, uv) ==> acts[|acts| - 1] == Upload(uv))
      && Recipients(acts) == (if Fires(s, day, uv) then Subscribers(s.slots) else [])
      && Typings(acts) == 0
      && forall a :: a in acts ==> (a.Upload? ==> a.value == uv) && (a.Send? ==> a.msg == UvTooHighText)
  {
    LogAppend(Hourly(s, hour, uv), Daily(s, day, uv));
  }

  /** One reading of the clock and the sensor. */
  datatype Sample = Sample(day: Weekday, hour: Hour, uv: int)

  /** Successive ticks. */
  function Run(s: State, xs: seq<Sample>): Step
    decreases |xs|
  {
    if |xs| == 0 then Step(s, [])
    else
      var t := Tick(s, xs[0].day, xs[0].hour, xs[0].uv);
      var rest := Run(t.state, xs[1..]);
      Step(rest.state, t.actions + rest.actions)
  }

  /** Number of ticks of a run that fire the daily warning. */
  function Fired(s: State, xs: seq<Sample>): nat
    decreases |xs|
  {
    if |xs| == 0 then 0
    else
      (if Fires(s, xs[0].day, xs[0].uv) then 1 else 0) + Fired(Tick(s, xs[0].day, xs[0].hour, xs[0].uv).state, xs[1..])
  }

  /** Number of ticks of a run that see a new hour. */
  function NewHours(s: State, xs: seq<Sample>): nat
    decreases |xs|
  {
    if |xs| == 0 then 0
    else
      (if xs[0].hour != s.lastHour then 1 else 0) + NewHours(Tick(s, xs[0].day, xs[0].hour, xs[0].uv).state, xs[1..])
  }

  /** Every configuration write of a run belongs to a warning, and every upload either to a new
      hour or to a warning; ticks never touch the registry. */
  lemma {:induction false} RunLog(s: State, xs: seq<Sample>)
    ensures Persists(Run(s, xs).actions) == Fired(s, xs)
    ensures Uploads(Run(s, xs).actions) == NewHours(s, xs) + Fired(s, xs)
    ensures Run(s, xs).state.slots == s.slots
    decreases |xs|
  {
    if |xs| > 0 {
      var t := Tick(s, xs[0].day, xs[0].hour, xs[0].uv);
      TickLog(s, xs[0].day, xs[0].hour, xs[0].uv);
      RunLog(t.state, xs[1..]);
      LogAppend(t.actions, Run(t.state, xs[1..]).actions);
    }
  }

  /** Once the warning day is today, no later tick on that day warns again: the correction can
      never move a warning day that equals the current day. */
  lemma {:induction false} AlreadyWarnedToday(s: State, day: Weekday, xs: seq<Sample>)
    requires s.lastToday == day
    requires forall i :: 0 <= i < |xs| ==> xs[i].day == day
    ensures Fired(s, xs) == 0
    ensures Run(s, xs).state.lastToday == day
    decreases |xs|
  {
    if |xs| > 0 {
      var t := Tick(s, day, xs[0].hour, xs[0].uv);
      assert t.state.lastToday == day;
      AlreadyWarnedToday(t.state, day, xs[1..]);
    }
  }

  /** However many high readings arrive during one day, the warning fires at most once. */
  lemma {:induction false} AtMostOneWarningPerDay(s: State, day: Weekday, xs: seq<Sample>)
    requires forall i :: 0 <= i < |xs| ==> xs[i].day == day
    ensures Fired(s, xs) <= 1
    decreases |xs|
  {
    if |xs| > 0 {
      var t := Tick(s, day, xs[0].hour, xs[0].uv);
      if Fires(s, day, xs[0].uv) {
        AlreadyWarnedToday(t.state, day, xs[1..]);
      } else {
        AtMostOneWarningPerDay(t.state, day, xs[1..]);
      }
    }
  }

  /** When the stored warning day is neither today nor `(day + 1) % 6` (for which the correction
      blocks today, see `CorrectionSuppresses`), a day with at least one high reading fires exactly
      one warning. */
  lemma {:induction false} ExactlyOneWarningPerDay(s: State, day: Weekday, xs: seq<Sample>)
    requires forall i :: 0 <= i < |xs| ==> xs[i].day == day
    requires s.lastToday != day && s.lastToday != (day + 1) % 6
    requires exists i :: 0 <= i < |xs| && xs[i].uv >= UVWARNING
    ensures Fired(s, xs) == 1
    decreases |xs|
  {
    var t := Tick(s, day, xs[0].hour, xs[0].uv);
    if Fires(s, day, xs[0].uv) {
      assert t.state.lastToday == day;
      AlreadyWarnedToday(t.state, day, xs[1..]);
      assert Fired(s, xs) == 1 + Fired(t.state, xs[1..]);
    } else {
      assert t.state.lastToday == Corrected(day, s.lastToday) == s.lastToday;
      var i :| 0 <= i < |xs| && xs[i].uv >= UVWARNING;
      assert i != 0;
      assert xs[1..][i - 1] == xs[i];
      ExactlyOneWarningPerDay(t.state, day, xs[1..]);
      assert Fired(s, xs) == Fired(t.state, xs[1..]);
    }
  }

  /** However many ticks fall in one hour, the hourly upload is attempted at most once, and exactly
      once when that hour differs from the last one uploaded, whatever the upload's outcome. */
  lemma {:induction false} OneUploadPerHour(s: State, hour: Hour, xs: seq<Sample>)
    requires forall i :: 0 <= i < |xs| ==> xs[i].hour == hour
    ensures NewHours(s, xs) == (if |xs| > 0 && s.lastHour != hour then 1 else 0)
    decreases |xs|
  {
    if |xs| > 0 {
      var t := Tick(s, xs[0].day, hour, xs[0].uv);
      OneUploadPerHour(t.state, hour, xs[1..]);
    }
  }

  /** The correction blocks the rest of a day: when the stored day equals `(day + 1) % 6` and the
      day's first tick reads low, the stored day becomes today, and no later reading that day warns,
      however high. */
  lemma CorrectionSuppresses(s: State, day: Weekday, xs: seq<Sample>)
    requires s.lastToday == (day + 1) % 6
    requires forall i :: 0 <= i < |xs| ==> xs[i].day == day
    requires |xs| > 0 && xs[0].uv < UVWARNING
    ensures Fired(s, xs) == 0
    ensures Run(s, xs).state.lastToday == day
  {
    var t := Tick(s, day, xs[0].hour, xs[0].uv);
    assert t.state.lastToday == day;
    AlreadyWarnedToday(t.state, day, xs[1..]);
  }

  /** Tuesday's warning, then nothing until Monday: Monday's midnight tick reads 0, so a noon
      reading of 40 warns nobody. */
  lemma MondayAfterQuietWeek(slots: Slots)
    ensures Fired(State(2, 23, slots), [Sample(1, 0, 0), Sample(1, 12, 40)]) == 0
  {
    CorrectionSuppresses(State(2, 23, slots), 1, [Sample(1, 0, 0), Sample(1, 12, 40)]);
  }

  /** With `% 6`, no weekday's correction ever matches a stored Saturday (6): once a warning has
      been sent on a Saturday, the stored day stays 6 through any run of low readings, so a high
      reading on the following Saturday does not warn. */
  lemma {:induction false} SaturdayNeverRearmed(s: State, xs: seq<Sample>)
    requires s.lastToday == 6
    requires forall i :: 0 <= i < |xs| ==> xs[i].uv < UVWARNING
    ensures Run(s, xs).state.lastToday == 6
    ensures forall uv :: !Fires(Run(s, xs).state, 6, uv)
    decreases |xs|
  {
    if |xs| > 0 {
      SaturdayNeverRearmed(Tick(s, xs[0].day, xs[0].hour, xs[0].uv).state, xs[1..]);
    }
  }

  /** The full rule of the correction for a stored weekday `d` below 6: it fires on the day before
      `d` (Friday for a stored Sunday) and, for a stored Monday, also on Saturday, because
      `(6 + 1) % 6 == 1`; on those days it moves the stored day to today instead of clearing it. */
  lemma CorrectionMovesBack(d: Weekday, day: Weekday)
    requires d < 6
    ensures Corrected(day, d) != d <==> day == (if d == 0 then 5 else d - 1) || (d == 1 && day == 6)
    ensures Corrected(day, d) != d ==> Corrected(day, d) == day
  {
  }

  /** A stored Monday drifts to Saturday and sticks there: after quiet ticks from Tuesday to Friday,
      Saturday's midnight tick reads 0 and stores Saturday, so a noon reading of 40 warns nobody. */
  lemma MondayStuckOnSaturday(slots: Slots)
    ensures var xs := [Sample(2, 0, 0), Sample(3, 0, 0), Sample(4, 0, 0), Sample(5, 0, 0),
                       Sample(6, 0, 0), Sample(6, 12, 40)];
            Fired(State(1, 23, slots), xs) == 0 && Run(State(1, 23, slots), xs).state.lastToday == 6
  {
    var xs := [Sample(2, 0, 0), Sample(3, 0, 0), Sample(4, 0, 0), Sample(5, 0, 0),
               Sample(6, 0, 0), Sample(6, 12, 40)];
    var s := State(1, 23, slots);
    var t1 := Tick(s, 2, 0, 0).state;
    var t2 := Tick(t1, 3, 0, 0).state;
    var t3 := Tick(t2, 4, 0, 0).state;
    var t4 := Tick(t3, 5, 0, 0).state;
    var t5 := Tick(t4, 6, 0, 0).state;
    assert t1.lastToday == 1 && t2.lastToday == 1 && t3.lastToday == 1 && t4.lastToday == 1;
    assert t5.lastToday == 6;
    AlreadyWarnedToday(t5, 6, xs[5..]);
    assert xs[1..][1..][1..][1..][1..] == xs[5..];
    assert Fired(s, xs) == Fired(t5, xs[5..]);
    assert Run(s, xs).state == Run(t5, xs[5..]).state;
  }

  /** A run of low readings, on any days, never warns. */
  lemma {:induction false} LowReadingsNeverWarn(s: State, xs: seq<Sample>)
    requires forall i :: 0 <= i < |xs| ==> xs[i].uv < UVWARNING
    ensures Fired(s, xs) == 0
    decreases |xs|
  {
    if |xs| > 0 {
      LowReadingsNeverWarn(Tick(s, xs[0].day, xs[0].hour, xs[0].uv).state, xs[1..]);
    }
  }

  /** When the stored day is `(day + 1) % 6` but the day's first tick reads high, the warning fires
      on that tick, before the correction can act, and exactly once that day. */
  lemma CorrectionPreemptedByHighFirst(s: State, day: Weekday, xs: seq<Sample>)
    requires s.lastToday == (day + 1) % 6
    requires forall i :: 0 <= i < |xs| ==> xs[i].day == day
    requires |xs| > 0 && xs[0].uv >= UVWARNING
    ensures Fired(s, xs) == 1
  {
    var t := Tick(s, day, xs[0].hour, xs[0].uv);
    assert t.state.lastToday == day;
    AlreadyWarnedToday(t.state, day, xs[1..]);
  }

  /** How many warnings one day's ticks fire, for every stored day: none if today is stored or no
      reading is high; none if `(day + 1) % 6` is stored and the first reading is low, because the
      correction then stores today; exactly one otherwise. */
  lemma WarningsInADay(s: State, day: Weekday, xs: seq<Sample>)
    requires forall i :: 0 <= i < |xs| ==> xs[i].day == day
    ensures Fired(s, xs) ==
              if s.lastToday == day || forall i :: 0 <= i < |xs| ==> xs[i].uv < UVWARNING then 0
              else if s.lastToday == (day + 1) % 6 && xs[0].uv < UVWARNING then 0
              else 1
  {
    if s.lastToday == day {
      AlreadyWarnedToday(s, day, xs);
    } else if forall i :: 0 <= i < |xs| ==> xs[i].uv < UVWARNING {
      LowReadingsNeverWarn(s, xs);
    } else if s.lastToday == (day + 1) % 6 {
      if xs[0].uv < UVWARNING {
        CorrectionSuppresses(s, day, xs);
      } else {
        CorrectionPreemptedByHighFirst(s, day, xs);
      }
    } else {
      ExactlyOneWarningPerDay(s, day, xs);
    }
  }
}
