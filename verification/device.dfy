/** The device's global state, the actions it performs on the outside world, and the persisted
    configuration record `{today, users}` that `createFile` writes and `readFile` reads back. */
module Device {
  import opened Config
  import opened Registry

  /** The texts the bot sends. */
  datatype Message =
    | AlreadySubscribedText
    | SubscribedText
    | LimitReachedText
    | UnsubscribedText
    | NotSubscribedText
    | UvTooHighText
    | UvReadingText(index: int)
    | WelcomeText
    | HelpText
    | NotAvailableText

  /** The persisted configuration record, abstracted from its JSON encoding. */
  datatype Record = Record(today: int, users: seq<string>)

  /** What one step asks of the outside world, in order. */
  datatype Action =
    | Upload(value: int)                 // one attempt to post a reading to the telemetry store
    | Send(to: string, msg: Message)     // a chat message
    | Persist(rec: Record)               // an overwrite of the configuration file
    | Typing(to: string)                 // the "typing" chat action

  /** `lastToday`, `last_hour_get` and `subscribed[]`. */
  datatype State = State(lastToday: int, lastHour: int, slots: Slots)

  /** A state together with the actions emitted while reaching it. */
  datatype Step = Step(state: State, actions: seq<Action>)

  /** The values the globals have when the device powers up. */
  const Boot: State := State(-1, -1, EmptySlots)

  /** Recipients of the chat messages among `acts`, in order. */
  function Recipients(acts: seq<Action>): seq<string> {
    if |acts| == 0 then []
    else (if acts[0].Send? then [acts[0].to] else []) + Recipients(acts[1..])
  }

  /** Number of upload attempts among `acts`. */
  function Uploads(acts: seq<Action>): nat {
    if |acts| == 0 then 0 else (if acts[0].Upload? then 1 else 0) + Uploads(acts[1..])
  }

  /** Number of configuration writes among `acts`. */
  function Persists(acts: seq<Action>): nat {
    if |acts| == 0 then 0 else (if acts[0].Persist? then 1 else 0) + Persists(acts[1..])
  }

  /** Number of "typing" indications among `acts`. */
  function Typings(acts: seq<Action>): nat {
    if |acts| == 0 then 0 else (if acts[0].Typing? then 1 else 0) + Typings(acts[1..])
  }

  /** Every projection of an action log distributes over concatenation. */
  lemma {:induction false} LogAppend(a: seq<Action>, b: seq<Action>)
    ensures Recipients(a + b) == Recipients(a) + Recipients(b)
    ensures Uploads(a + b) == Uploads(a) + Uploads(b)
    ensures Persists(a + b) == Persists(a) + Persists(b)
    ensures Typings(a + b) == Typings(a) + Typings(b)
    decreases |a|
  {
    if |a| > 0 {
      assert (a + b)[1..] == a[1..] + b;
      LogAppend(a[1..], b);
    } else {
      assert a + b == b;
    }
  }

  /** `createFile`: the record holds the warning day and all MAXSUB slots, free ones included. */
  function Save(s: State): (r: Record)
    ensures |r.users| == MAXSUB
  {
    Record(s.lastToday, s.slots)
  }

  /** Slot `i` as read back from a stored user list: entries past its end read as free. */
  function UserAt(users: seq<string>, i: nat): string {
    if i < |users| then users[i] else ""
  }

  /** `readFile`: the slots are cleared first; a stored record then supplies the warning day and
      the first MAXSUB users, while a missing file is created from the cleared state. */
  function Load(s: State, file: Option<Record>): (r: Step)
    ensures r.state.lastHour == s.lastHour
    ensures file.None? ==>
              r.state.lastToday == s.lastToday && Members(r.state.slots) == {} &&
              r.actions == [Persist(Save(r.state))]
    ensures file.Some? ==>
              r.actions == [] && r.state.lastToday == file.value.today &&
              Members(r.state.slots) <= set u | u in file.value.users
  {
    match file
    case None =>
      var cleared := s.(slots := EmptySlots);
      Step(cleared, [Persist(Save(cleared))])
    case Some(rec) =>
      var slots: Slots := seq(MAXSUB, i requires 0 <= i < MAXSUB => UserAt(rec.users, i));
      Step(State(rec.today, s.lastHour, slots), [])
  }

  /** Loading what was saved restores the warning day and every slot; only the in-memory hour of
      the last upload is not part of the record. */
  lemma SaveLoad(s: State, t: State)
    ensures Load(t, Some(Save(s))) == Step(s.(lastHour := t.lastHour), [])
  {
    var r := Load(t, Some(Save(s)));
    assert r.state.slots == s.slots;
  }

  /** On first power-up without a configuration file the device starts with no warning day and no
      subscribers, and writes that default record. */
  lemma FirstRun()
    ensures Load(Boot, None) == Step(Boot, [Persist(Record(-1, EmptySlots))])
  {
  }
}
