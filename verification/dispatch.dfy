/** Inbound chat messages: the length gate of `readTel` and the command dispatch of `handler`. */
module Dispatch {
  import opened Config
  import opened Registry
  import opened Device

  /** ASCII upper-casing of one character, as `toupper` in the C locale. */
  function UpperChar(c: char): char {
    if 'a' <= c <= 'z' then (c as int - 32) as char else c
  }

  /** `String::toUpperCase`. */
  function Upper(s: string): (r: string)
    ensures |r| == |s|
    ensures forall i :: 0 <= i < |r| ==> !('a' <= r[i] <= 'z')
    ensures forall i :: 0 <= i < |s| && 'a' <= s[i] <= 'z' ==> r[i] as int == s[i] as int - 32
    ensures forall i :: 0 <= i < |s| && !('a' <= s[i] <= 'z') ==> r[i] == s[i]
  {
    seq(|s|, i requires 0 <= i < |s| => UpperChar(s[i]))
  }

  /** Upper-casing twice is upper-casing once. */
  lemma UpperIdempotent(s: string)
    ensures Upper(Upper(s)) == Upper(s)
  {
  }

  /** `pat` occurs in `s` starting at index `i`. */
  predicate MatchesAt(s: string, pat: string, i: int) {
    0 <= i && i + |pat| <= |s| && s[i..i + |pat|] == pat
  }

  /** `msg.indexOf(pat) > -1`: `pat` occurs somewhere in `s`. */
  predicate Contains(s: string, pat: string) {
    exists i | 0 <= i <= |s| :: MatchesAt(s, pat, i)
  }

  /** What the handler does with a message. */
  datatype Command = AskUv | SubscribeCmd | UnsubscribeCmd | Start | Help | Unknown

  /** The dispatch chain of `handler` on the upper-cased text: the "UV" test first, then the exact
      commands. */
  function Classify(text: string): (r: Command)
    ensures r == AskUv <==> Contains(Upper(text), "UV")
    ensures r == SubscribeCmd <==> Upper(text) == "SUBSCRIBE"
    ensures r == UnsubscribeCmd <==> Upper(text) == "UNSUBSCRIBE"
    ensures r == Start <==> Upper(text) == "/START"
    ensures r == Help <==> Upper(text) == "/HELP"
  {
    var m := Upper(text);
    NoUvInCommands(m);
    if Contains(m, "UV") then AskUv
    else if m == "SUBSCRIBE" then SubscribeCmd
    else if m == "UNSUBSCRIBE" then UnsubscribeCmd
    else if m == "/START" then Start
    else if m == "/HELP" then Help
    else Unknown
  }

  /** None of the exact commands contains "UV", so the "UV" test, checked first, shadows none of
      them. */
  lemma NoUvInCommands(m: string)
    ensures m in ["SUBSCRIBE", "UNSUBSCRIBE", "/START", "/HELP"] ==> !Contains(m, "UV")
  {
    if m in ["SUBSCRIBE", "UNSUBSCRIBE", "/START", "/HELP"] {
      forall i ensures !MatchesAt(m, "UV", i) {
        if 0 <= i && i + 2 <= |m| {
          assert m[i..i + 2][0] == m[i] && m[i..i + 2][1] == m[i + 1];
          assert m[i] != 'U' || m[i + 1] != 'V';
        }
      }
    }
  }

  /** Dispatch ignores letter case. */
  lemma ClassifyIgnoresCase(text: string)
    ensures Classify(Upper(text)) == Classify(text)
  {
    UpperIdempotent(text);
  }

  /** The reply to a registry request. */
  function Reply(o: Outcome): Message {
    match o
    case AlreadySubscribed => AlreadySubscribedText
    case Added => SubscribedText
    case LimitReached => LimitReachedText
    case Removed => UnsubscribedText
    case NotFound => NotSubscribedText
  }

  /** Applies a registry update: a write of the configuration when `main.cpp` calls `createFile`
      (after adding or clearing a slot), then the reply to the requester. */
  function Commit(s: State, chat: string, u: Update): (r: Step)
    ensures r.state == s.(slots := u.slots)
    ensures Recipients(r.actions) == [chat]
    ensures Persists(r.actions) == (if u.outcome in {Added, Removed} then 1 else 0)
    ensures u.outcome in {Added, Removed} ==> r.actions[0] == Persist(Save(r.state))
    ensures Uploads(r.actions) == 0 && Typings(r.actions) == 0
    ensures r.actions[|r.actions| - 1] == Send(chat, Reply(u.outcome))
  {
    var persist := if u.outcome in {Added, Removed} then [Persist(Save(s.(slots := u.slots)))] else [];
    LogAppend(persist, [Send(chat, Reply(u.outcome))]);
    Step(s.(slots := u.slots), persist + [Send(chat, Reply(u.outcome))])
  }

  /** `handler`: show "typing", then answer the command; only SUBSCRIBE and UNSUBSCRIBE touch the
      registry. `uv` is the sensor reading taken if the text asks for it. */
  function Handle(s: State, chat: string, text: string, uv: int): (r: Step)
    ensures |r.actions| > 0 && r.actions[0] == Typing(chat)
    ensures Typings(r.actions) == 1 && Uploads(r.actions) == 0
    ensures Recipients(r.actions) == [chat]
    ensures r.state.lastToday == s.lastToday && r.state.lastHour == s.lastHour
    ensures Classify(text) == SubscribeCmd ==> r.state.slots == Subscribe(s.slots, chat).slots
    ensures Classify(text) == UnsubscribeCmd ==> r.state.slots == Unsubscribe(s.slots, chat).slots
    ensures Classify(text) !in {SubscribeCmd, UnsubscribeCmd} ==> r.state == s && Persists(r.actions) == 0
    ensures Classify(text) == SubscribeCmd ==> Send(chat, Reply(Subscribe(s.slots, chat).outcome)) in r.actions
    ensures Classify(text) == UnsubscribeCmd ==> Send(chat, Reply(Unsubscribe(s.slots, chat).outcome)) in r.actions
    ensures Classify(text) == AskUv ==> Send(chat, UvReadingText(uv)) in r.actions
    ensures Classify(text) == Start ==> Send(chat, WelcomeText) in r.actions
    ensures Classify(text) == Help ==> Send(chat, HelpText) in r.actions
    ensures Classify(text) == Unknown ==> Send(chat, NotAvailableText) in r.actions
    ensures chat != "" ==> (Persists(r.actions) == 1 <==> r.state.slots != s.slots)
    ensures NoDuplicates(s.slots) ==> NoDuplicates(r.state.slots)
  {
    var answer := match Classify(text)
      case AskUv => Step(s, [Send(chat, UvReadingText(uv))])
      case SubscribeCmd => Commit(s, chat, Subscribe(s.slots, chat))
      case UnsubscribeCmd => Commit(s, chat, Unsubscribe(s.slots, chat))
      case Start => Step(s, [Send(chat, WelcomeText)])
      case Help => Step(s, [Send(chat, HelpText)])
      case Unknown => Step(s, [Send(chat, NotAvailableText)]);
    LogAppend([Typing(chat)], answer.actions);
    Step(answer.state, [Typing(chat)] + answer.actions)
  }

  /** One message as fetched from the chat service, with the sensor reading the handler would take. */
  datatype Inbound = Inbound(chat: string, text: string, uv: int)

  /** The messages that pass the length gate. */
  function Accepted(inbox: seq<Inbound>): (r: seq<Inbound>)
    ensures |r| <= |inbox|
    ensures forall m :: m in r <==> m in inbox && |m.text| < MAXLEN
  {
    if |inbox| == 0 then []
    else (if |inbox[0].text| < MAXLEN then [inbox[0]] else []) + Accepted(inbox[1..])
  }

  /** The senders of `msgs`, in order. */
  function Chats(msgs: seq<Inbound>): seq<string> {
    if |msgs| == 0 then [] else [msgs[0].chat] + Chats(msgs[1..])
  }

  /** A short first message is the first accepted one, and its sender the first recipient. */
  lemma AcceptedCons(inbox: seq<Inbound>)
    requires |inbox| > 0 && |inbox[0].text| < MAXLEN
    ensures Accepted(inbox) == [inbox[0]] + Accepted(inbox[1..])
    ensures Chats(Accepted(inbox)) == [inbox[0].chat] + Chats(Accepted(inbox[1..]))
  {
    var a := Accepted(inbox[1..]);
    assert ([inbox[0]] + a)[1..] == a;
  }

  /** A long first message is not accepted. */
  lemma AcceptedSkip(inbox: seq<Inbound>)
    requires |inbox| > 0 && |inbox[0].text| >= MAXLEN
    ensures Accepted(inbox) == Accepted(inbox[1..])
  {
    assert [] + Accepted(inbox[1..]) == Accepted(inbox[1..]);
  }

  /** The registry request a message makes: SUBSCRIBE and UNSUBSCRIBE name their sender, every
      other command makes none. */
  function RequestOf(m: Inbound): seq<Request> {
    match Classify(m.text)
    case SubscribeCmd => [Request.Join(m.chat)]
    case UnsubscribeCmd => [Request.Leave(m.chat)]
    case _ => []
  }

  /** The registry requests of `msgs`, in order. */
  function Requests(msgs: seq<Inbound>): seq<Request> {
    if |msgs| == 0 then [] else RequestOf(msgs[0]) + Requests(msgs[1..])
  }

  /** `readTel`: every fetched message in order; a text of MAXLEN or more characters is dropped
      without a reply. */
  function ReadTel(s: State, inbox: seq<Inbound>): (r: Step)
    ensures r.state.lastToday == s.lastToday && r.state.lastHour == s.lastHour
    ensures Recipients(r.actions) == Chats(Accepted(inbox))
    ensures Typings(r.actions) == |Accepted(inbox)|
    ensures Uploads(r.actions) == 0
    ensures NoDuplicates(s.slots) ==> NoDuplicates(r.state.slots)
    decreases |inbox|
  {
    if |inbox| == 0 then Step(s, [])
    else if |inbox[0].text| >= MAXLEN then
      AcceptedSkip(inbox);
      ReadTel(s, inbox[1..])
    else
      var h := Handle(s, inbox[0].chat, inbox[0].text, inbox[0].uv);
      var rest := ReadTel(h.state, inbox[1..]);
      LogAppend(h.actions, rest.actions);
      AcceptedCons(inbox);
      Step(rest.state, h.actions + rest.actions)
  }

  /** One handled message changes the registry as its request does. */
  lemma HandleRegistry(s: State, m: Inbound)
    ensures Handle(s, m.chat, m.text, m.uv).state.slots == ApplyAll(s.slots, RequestOf(m))
  {
    var q := RequestOf(m);
    if |q| == 1 { assert q[1..] == []; }
  }

  /** What `readTel` does to the registry is what the registry's request sequence does: each
      accepted SUBSCRIBE or UNSUBSCRIBE, in order, applied for its sender. */
  lemma {:induction false} ReadTelRegistry(s: State, inbox: seq<Inbound>)
    ensures ReadTel(s, inbox).state.slots == ApplyAll(s.slots, Requests(Accepted(inbox)))
    decreases |inbox|
  {
    if |inbox| > 0 {
      var m, rest := inbox[0], inbox[1..];
      if |m.text| >= MAXLEN {
        ReadTelRegistry(s, rest);
        assert Accepted(inbox) == Accepted(rest);
      } else {
        var h := Handle(s, m.chat, m.text, m.uv);
        ReadTelRegistry(h.state, rest);
        HandleRegistry(s, m);
        var q, a := RequestOf(m), Accepted(rest);
        AcceptedCons(inbox);
        assert ([m] + a)[1..] == a;
        assert Requests(Accepted(inbox)) == q + Requests(a);
        ApplyAllConcat(s.slots, q, Requests(a));
      }
    }
  }

  /** Dropping the long messages beforehand changes nothing: they never reach the handler. */
  lemma {:induction false} LongMessagesIgnored(s: State, inbox: seq<Inbound>)
    ensures ReadTel(s, inbox) == ReadTel(s, Accepted(inbox))
    decreases |inbox|
  {
    if |inbox| > 0 {
      var a := Accepted(inbox[1..]);
      LongMessagesIgnored(s, inbox[1..]);
      if |inbox[0].text| < MAXLEN {
        var h := Handle(s, inbox[0].chat, inbox[0].text, inbox[0].uv);
        LongMessagesIgnored(h.state, inbox[1..]);
        assert Accepted(inbox) == [inbox[0]] + a;
        assert ([inbox[0]] + a)[1..] == a;
      } else {
        assert Accepted(inbox) == a;
      }
    }
  }
}
