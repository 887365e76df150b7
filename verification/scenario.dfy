/** A concrete day in the life of the device: two users subscribe, a third is refused only when the
    registry is full, and high readings on one day warn each subscriber once. */
module Scenario {
  import opened Registry
  import opened Device
  import opened Scheduler

  /** A registry holding "A" and "B" and eight free slots. */
  const TwoSubscribers: Slots := ["A", "B", "", "", "", "", "", "", "", ""]

  /** A registry with every slot taken. */
  const Full: Slots := ["A", "B", "C", "D", "E", "F", "G", "H", "I", "J"]

  /** A registry holding only "A". */
  const OneSubscriber: Slots := ["A", "", "", "", "", "", "", "", "", ""]

  /** From power-up, "A" goes into the lowest slot. */
  lemma FirstSubscriber()
    ensures Subscribe(EmptySlots, "A") == Update(OneSubscriber, Added)
  {
    assert "A" !in EmptySlots;
    assert FirstAt(EmptySlots, "", 0);
    assert EmptySlots[0 := "A"] == OneSubscriber;
  }

  /** "B" then goes into the next slot. */
  lemma SecondSubscriber()
    ensures Subscribe(OneSubscriber, "B") == Update(TwoSubscribers, Added)
  {
    assert "B" !in OneSubscriber;
    assert FirstAt(OneSubscriber, "", 1);
    assert OneSubscriber[1 := "B"] == TwoSubscribers;
  }

  /** Subscribing "A" again changes nothing. */
  lemma RepeatedSubscriber()
    ensures Subscribe(TwoSubscribers, "A") == Update(TwoSubscribers, AlreadySubscribed)
  {
    assert TwoSubscribers[0] == "A";
  }

  /** When every slot is taken, "K" is refused and nothing changes. */
  lemma RegistryFull()
    ensures Subscribe(Full, "K") == Update(Full, LimitReached)
  {
    assert "K" !in Full && "" !in Full;
  }

  /** On Tuesday (2) at 10h a reading of 35 warns "A" and "B"; a reading of 40 an hour later warns
      nobody; on Wednesday a reading of 32 warns them once more. */
  lemma WarningDays()
    ensures var t1 := Tick(State(-1, 9, TwoSubscribers), 2, 10, 35);
            && Recipients(t1.actions) == ["A", "B"]
            && t1.state.lastToday == 2
            && var t2 := Tick(t1.state, 2, 11, 40);
            && Recipients(t2.actions) == []
            && var t3 := Tick(t2.state, 3, 9, 32);
            && Recipients(t3.actions) == ["A", "B"]
            && t3.state.lastToday == 3
  {
    var s := State(-1, 9, TwoSubscribers);
    assert Fires(s, 2, 35);
    assert Subscribers(TwoSubscribers) == ["A", "B"];
    var t1 := Tick(s, 2, 10, 35);
    TickLog(s, 2, 10, 35);
    TickLog(t1.state, 2, 11, 40);
    TickLog(Tick(t1.state, 2, 11, 40).state, 3, 9, 32);
  }
}
