/** The subscriber registry: a fixed array of MAXSUB chat ids in which "" marks a free slot.
    `subscribe` and `unsubscribe` scan the array upwards, exactly as the device's loops do. */
module Registry {
  import opened Config

  /** The registry always has exactly MAXSUB slots. */
  type Slots = s: seq<string> | |s| == MAXSUB
    witness ["", "", "", "", "", "", "", "", "", ""]

  /** All slots free: the state after a reset. */
  const EmptySlots: Slots := ["", "", "", "", "", "", "", "", "", ""]

  datatype Outcome = AlreadySubscribed | Added | LimitReached | Removed | NotFound

  /** Slots after an operation together with what the operation reports to the user. */
  datatype Update = Update(slots: Slots, outcome: Outcome)

  /** `k` is the lowest index at which `x` occurs in `s`. */
  predicate FirstAt(s: seq<string>, x: string, k: int) {
    0 <= k < |s| && s[k] == x && forall j :: 0 <= j < k ==> s[j] != x
  }

  /** The non-empty ids currently registered. */
  function Members(s: seq<string>): set<string> {
    set x | x in s && x != ""
  }

  /** No non-empty id occupies two slots. */
  predicate NoDuplicates(s: seq<string>) {
    forall i, j :: 0 <= i < j < |s| && s[i] != "" ==> s[i] != s[j]
  }

  /** The upward scan for `x`: the index of its first occurrence, if any. */
  function FirstIndex(s: seq<string>, x: string): (r: Option<nat>)
    ensures r.Some? ==> FirstAt(s, x, r.value)
    ensures r.None? <==> x !in s
  {
    if |s| == 0 then None
    else if s[0] == x then Some(0)
    else match FirstIndex(s[1..], x)
      case None => None
      case Some(k) => Some(k + 1)
  }

  /** `subscribe(chatID)`: report an id that is already present, otherwise write it into the
      lowest free slot, otherwise report that the registry is full. */
  function Subscribe(s: Slots, id: string): (r: Update)
    ensures id in s ==> r == Update(s, AlreadySubscribed)
    ensures id !in s && "" in s ==>
              r.outcome == Added && forall k :: FirstAt(s, "", k) ==> r.slots == s[k := id]
    ensures id !in s && "" !in s ==> r == Update(s, LimitReached)
    ensures r.outcome == Added ==> r.slots != s
    ensures NoDuplicates(s) ==> NoDuplicates(r.slots)
  {
    match FirstIndex(s, id)
    case Some(_) => Update(s, AlreadySubscribed)
    case None =>
      match FirstIndex(s, "")
      case Some(k) => Update(s[k := id], Added)
      case None => Update(s, LimitReached)
  }

  /** `unsubscribe(chatID)`: clear the first slot holding the id, or report that it is absent. */
  function Unsubscribe(s: Slots, id: string): (r: Update)
    ensures id in s ==>
              r.outcome == Removed && forall k :: FirstAt(s, id, k) ==> r.slots == s[k := ""]
    ensures id !in s ==> r == Update(s, NotFound)
    ensures id != "" && id in s ==> r.slots != s
    ensures NoDuplicates(s) ==> NoDuplicates(r.slots)
  {
    match FirstIndex(s, id)
    case Some(k) => Update(s[k := ""], Removed)
    case None => Update(s, NotFound)
  }

  /** A successful subscribe adds exactly the new id to the members; the other paths change no
      membership. */
  lemma SubscribeMembers(s: Slots, id: string)
    ensures Subscribe(s, id).outcome == Added ==> Members(Subscribe(s, id).slots) == Members(s) + {id}
    ensures Subscribe(s, id).outcome != Added ==> Members(Subscribe(s, id).slots) == Members(s)
    ensures Subscribe(s, id).outcome != LimitReached && id != "" ==> id in Members(Subscribe(s, id).slots)
  {
    var r := Subscribe(s, id);
    if r.outcome == Added {
      var k :| FirstAt(s, "", k);
      assert r.slots == s[k := id];
      forall x | x in Members(r.slots) ensures x in Members(s) + {id} {
        var i :| 0 <= i < |r.slots| && r.slots[i] == x;
        if i != k { assert s[i] == x; }
      }
      forall x | x in Members(s) + {id} ensures x in Members(r.slots) {
        if x == id {
          assert r.slots[k] == id;
        } else {
          var i :| 0 <= i < |s| && s[i] == x;
          assert i != k && r.slots[i] == x;
        }
      }
    }
  }

  /** With no duplicates, a removal takes the id out of the registry and keeps every other member. */
  lemma UnsubscribeMembers(s: Slots, id: string)
    requires NoDuplicates(s)
    ensures Members(Unsubscribe(s, id).slots) == Members(s) - {id}
    ensures id !in Members(Unsubscribe(s, id).slots)
  {
    var r := Unsubscribe(s, id);
    if id in s {
      var k :| FirstAt(s, id, k);
      assert r.slots == s[k := ""];
      forall x | x in Members(r.slots) ensures x in Members(s) - {id} {
        var i :| 0 <= i < |r.slots| && r.slots[i] == x;
        assert i != k && s[i] == x;
        assert x != id by {
          if i > k { assert s[k] != "" ==> s[k] != s[i]; }
        }
      }
      forall x | x in Members(s) - {id} ensures x in Members(r.slots) {
        var i :| 0 <= i < |s| && s[i] == x;
        assert i != k && r.slots[i] == x;
      }
    }
  }

  /** The registered ids in slot order, skipping free slots: the fan-out list of a warning. */
  function Subscribers(s: seq<string>): (r: seq<string>)
    ensures forall x :: x in r <==> x in Members(s)
    ensures |r| <= |s|
  {
    if |s| == 0 then []
    else if s[0] == "" then Subscribers(s[1..])
    else [s[0]] + Subscribers(s[1..])
  }

  /** Without duplicate slots, the fan-out list names every subscriber once. */
  lemma {:induction false} SubscribersDistinct(s: seq<string>)
    requires NoDuplicates(s)
    ensures forall i, j :: 0 <= i < j < |Subscribers(s)| ==> Subscribers(s)[i] != Subscribers(s)[j]
    decreases |s|
  {
    if |s| > 0 {
      assert NoDuplicates(s[1..]) by {
        forall i, j | 0 <= i < j < |s[1..]| && s[1..][i] != "" ensures s[1..][i] != s[1..][j] {
          assert s[i + 1] != s[j + 1];
        }
      }
      SubscribersDistinct(s[1..]);
      if s[0] != "" {
        assert s[0] !in Members(s[1..]) by {
          forall j | 0 <= j < |s[1..]| ensures s[1..][j] != s[0] {
            assert s[0] != s[j + 1];
          }
        }
        var r := Subscribers(s);
        assert r == [s[0]] + Subscribers(s[1..]);
        forall i, j | 0 <= i < j < |r| ensures r[i] != r[j] {
          if i == 0 { assert r[j] in Subscribers(s[1..]); }
          else { assert r[i] == Subscribers(s[1..])[i - 1] && r[j] == Subscribers(s[1..])[j - 1]; }
        }
      }
    }
  }

  /** A request a chat user can make of the registry. */
  datatype Request = Join(id: string) | Leave(id: string) {
    function Id(): string {
      match this
      case Join(id) => id
      case Leave(id) => id
    }
  }

  /** Applies one request. */
  function Apply(s: Slots, q: Request): Slots {
    match q
    case Join(id) => Subscribe(s, id).slots
    case Leave(id) => Unsubscribe(s, id).slots
  }

  /** Applies a sequence of requests in order. */
  function ApplyAll(s: Slots, qs: seq<Request>): Slots
    decreases |qs|
  {
    if |qs| == 0 then s else ApplyAll(Apply(s, qs[0]), qs[1..])
  }

  /** Requests about one id never change whether any other id is registered. */
  lemma OtherMembersUnaffected(s: Slots, q: Request, x: string)
    requires NoDuplicates(s)
    requires x != q.Id()
    ensures x in Members(Apply(s, q)) <==> x in Members(s)
  {
    match q
    case Join(id) => SubscribeMembers(s, id);
    case Leave(id) => UnsubscribeMembers(s, id);
  }

  /** Requests that never name `x` leave its membership as it was. */
  lemma {:induction false} Untouched(s: Slots, qs: seq<Request>, x: string)
    requires NoDuplicates(s)
    requires forall i :: 0 <= i < |qs| ==> qs[i].Id() != x
    ensures x in Members(ApplyAll(s, qs)) <==> x in Members(s)
    decreases |qs|
  {
    if |qs| > 0 {
      OtherMembersUnaffected(s, qs[0], x);
      NetEffectPrefix(s, [qs[0]]);
      assert ApplyAll(s, [qs[0]]) == Apply(s, qs[0]);
      Untouched(Apply(s, qs[0]), qs[1..], x);
    }
  }

  /** The last request decides the membership of the id it names: the id is in afterwards exactly
      when that request is a subscribe that did not find the registry full. */
  lemma LastRequest(s: Slots, qs: seq<Request>, q: Request)
    requires NoDuplicates(s)
    requires q.Id() != ""
    ensures q.Id() in Members(ApplyAll(s, qs + [q])) <==>
              q.Join? && Subscribe(ApplyAll(s, qs), q.Id()).outcome != LimitReached
  {
    ApplyAllSnoc(s, qs, q);
    NetEffectPrefix(s, qs);
    match q
    case Leave(id) => UnsubscribeMembers(ApplyAll(s, qs), id);
    case Join(id) => SubscribeMembers(ApplyAll(s, qs), id);
  }

  /** `qs[i]` is the last request of `qs` that names `x`. */
  predicate NamedLastAt(qs: seq<Request>, x: string, i: int) {
    0 <= i < |qs| && qs[i].Id() == x && forall j :: i < j < |qs| ==> qs[j].Id() != x
  }

  /** Requests after the last one naming `x` cannot undo its effect on `x`. */
  lemma LastNamingDecides(s: Slots, qs: seq<Request>, x: string, i: int)
    requires NoDuplicates(s)
    requires x != ""
    requires NamedLastAt(qs, x, i)
    ensures x in Members(ApplyAll(s, qs)) <==>
              qs[i].Join? && Subscribe(ApplyAll(s, qs[..i]), x).outcome != LimitReached
  {
    var head, tail := qs[..i + 1], qs[i + 1..];
    assert head + tail == qs;
    assert qs[..i] + [qs[i]] == head;
    ApplyAllConcat(s, head, tail);
    LastRequest(s, qs[..i], qs[i]);
    NetEffectPrefix(s, head);
    assert forall j :: 0 <= j < |tail| ==> tail[j] == qs[i + 1 + j];
    Untouched(ApplyAll(s, head), tail, x);
  }

  /** Over any sequence of requests the registry keeps its capacity and never holds an id twice,
      an id no request names keeps its membership, and otherwise the last request naming the id
      decides it, whatever requests about other ids follow. */
  lemma NetEffect(s: Slots, qs: seq<Request>, x: string)
    requires NoDuplicates(s)
    requires x != ""
    ensures NoDuplicates(ApplyAll(s, qs))
    ensures (forall i :: 0 <= i < |qs| ==> qs[i].Id() != x) ==>
              (x in Members(ApplyAll(s, qs)) <==> x in Members(s))
    ensures forall i :: NamedLastAt(qs, x, i) ==>
              (x in Members(ApplyAll(s, qs)) <==>
               qs[i].Join? && Subscribe(ApplyAll(s, qs[..i]), x).outcome != LimitReached)
  {
    NetEffectPrefix(s, qs);
    if forall i :: 0 <= i < |qs| ==> qs[i].Id() != x {
      Untouched(s, qs, x);
    }
    forall i | NamedLastAt(qs, x, i)
      ensures x in Members(ApplyAll(s, qs)) <==>
                qs[i].Join? && Subscribe(ApplyAll(s, qs[..i]), x).outcome != LimitReached
    {
      LastNamingDecides(s, qs, x, i);
    }
  }

  /** Applying two sequences in turn is applying their concatenation. */
  lemma {:induction false} ApplyAllConcat(s: Slots, a: seq<Request>, b: seq<Request>)
    ensures ApplyAll(s, a + b) == ApplyAll(ApplyAll(s, a), b)
    decreases |a|
  {
    if |a| > 0 {
      assert (a + b)[1..] == a[1..] + b;
      ApplyAllConcat(Apply(s, a[0]), a[1..], b);
    } else {
      assert a + b == b;
    }
  }

  /** Applying a request after a sequence is applying the extended sequence. */
  lemma {:induction false} ApplyAllSnoc(s: Slots, qs: seq<Request>, q: Request)
    ensures ApplyAll(s, qs + [q]) == Apply(ApplyAll(s, qs), q)
    decreases |qs|
  {
    if |qs| > 0 {
      assert (qs + [q])[1..] == qs[1..] + [q];
      ApplyAllSnoc(Apply(s, qs[0]), qs[1..], q);
    }
  }

  /** No request ever introduces a duplicate. */
  lemma {:induction false} NetEffectPrefix(s: Slots, qs: seq<Request>)
    requires NoDuplicates(s)
    ensures NoDuplicates(ApplyAll(s, qs))
    decreases |qs|
  {
    if |qs| > 0 {
      var q := qs[0];
      assert NoDuplicates(Apply(s, q)) by {
        match q
        case Join(id) =>
        case Leave(id) =>
      }
      NetEffectPrefix(Apply(s, q), qs[1..]);
    }
  }
}
