/** Runs in which the statistics queue does not do what it is for (performance/performance.go). When it
    does is said in load_laws.dfy and flushed_bytes.dfy. */
module LoadFindings {
  import opened LoadWindow
  import opened LoadLaws

  ghost predicate Follows(s: World, e: Event, t: World) {
    WellFormed(s.w) && Enabled(s, e) && Step(s, e, true) == Next(t)
  }

  // A ring of three slots and a job begun at 10 that two later begins push out of it.
  const H0 := World(Window([QEntry(0, 0, 0), QEntry(0, 0, 0), QEntry(0, 0, 0)], 0, NO_STAT, NO_STAT), [], 0, 0, 0)
  const H1 := World(Window([QEntry(0, 0, 0), QEntry(0, 0, 0), QEntry(10, 1, 0)], 1, NO_STAT, NO_STAT), [10], 10, 10, 0)
  const H2 := World(Window([QEntry(0, 0, 0), QEntry(10, 1, 0), QEntry(20, 2, 0)], 2, NO_STAT, NO_STAT), [10, 20], 20, 10, 0)
  const H3 := World(Window([QEntry(10, 1, 0), QEntry(20, 2, 0), QEntry(30, 3, 0)], 2, QStat(10, 0, 10), NO_STAT), [10, 20, 30], 30, 10, 0)

  lemma StartOfThree()
    ensures H0 == Start(3)
  {
    assert H0.w.slots == Start(3).w.slots;
  }

  lemma ThreeBegins()
    ensures Follows(H0, Begin(10), H1) && Follows(H1, Begin(20), H2) && Follows(H2, Begin(30), H3)
  {
    StepIsBegan(H0, 10, true);
    StepIsBegan(H1, 20, true);
    StepIsBegan(H2, 30, true);
  }

  /** A job that is still running when every slot has been stamped after its start cannot be ended:
      the report never returns. */
  lemma LongJobHangs()
    ensures H0 == Start(3)
    ensures Follows(H0, Begin(10), H1) && Follows(H1, Begin(20), H2) && Follows(H2, Begin(30), H3)
    ensures WellFormed(H3.w) && Enabled(H3, End(0, 40, 7)) && Step(H3, End(0, 40, 7), true) == Hang
  {
    StartOfThree();
    ThreeBegins();
    StartInv(3);
    StepTheorem(H0, Begin(10), true);
    StepTheorem(H1, Begin(20), true);
    StepTheorem(H2, Begin(30), true);
    EndHangs(H3, End(0, 40, 7), true);
  }

  // After the first two of those begins, both jobs end in one tick, the later one first.
  const F3 := World(Window([QEntry(10, 1, 0), QEntry(20, 2, 0), QEntry(30, 1, 0)], 2, QStat(10, 0, 10), QStat(10, 0, 10)), [10], 29, 10, 0)
  const F4 := World(Window([QEntry(10, 1, 4), QEntry(20, 2, 3), QEntry(30, 0, 0)], 2, QStat(10, 0, 10), QStat(30, 7, 10)), [], 29, 10, 0)

  lemma LaterJobEnds()
    ensures Follows(H2, End(1, 29, 0), F3)
  {
    var e := End(1, 29, 0);
    var w := Push(H2.w, 30, 1);
    assert AdvanceHead(H2.w) == H2.w.(live := 1, stat := QStat(10, 0, 10));
    assert w.slots == [QEntry(10, 1, 0), QEntry(20, 2, 0), QEntry(30, 1, 0)];
    assert Note(H2.w, Report(H2, e), true) == Noted(F3.w, 0);
    NothingToShare(F3.w, Report(H2, e), true);
    assert Without(H2.open, 1) == [10];
  }

  lemma SevenBytesShared()
    ensures var slots := [QEntry(10, 1, 0), QEntry(20, 2, 0), QEntry(30, 0, 0)];
            Distribute(slots, 2, 10, 20, 7, true, 3) == Settled(F4.w.slots)
  {
    var slots := [QEntry(10, 1, 0), QEntry(20, 2, 0), QEntry(30, 0, 0)];
    var once := [QEntry(10, 1, 0), QEntry(20, 2, 3), QEntry(30, 0, 0)];
    assert TruncDiv(7 * 10, 20) == 3;
    assert slots[1 := slots[1].(bytes := 3)] == once;
    assert once[0 := once[0].(bytes := 4)] == F4.w.slots;
    assert Distribute(once, 1, 10, 20, 4, true, 2) == Settled(F4.w.slots);
  }

  lemma EarlierJobEnds()
    ensures Follows(F3, End(0, 29, 7), F4)
  {
    var e := End(0, 29, 7);
    var w := F3.w.(slots := [QEntry(10, 1, 0), QEntry(20, 2, 0), QEntry(30, 0, 0)], user := QStat(30, 7, 10));
    assert F3.w.slots[2 := QEntry(30, 0, 0)] == w.slots;
    assert Note(F3.w, Report(F3, e), true) == Noted(w, 7);
    SevenBytesShared();
    assert Share(w, Report(F3, e), 7, true) == Done(F4.w);
    assert Without(F3.open, 0) == [];
  }

  /** Seven bytes transferred in all, none of them flushed and only three in the queue: the others were
      shared into a slot whose entry had been evicted, and no slot was ever reused with bytes in it. */
  lemma FlushedBytesFallShort()
    ensures H0 == Start(3)
    ensures Follows(H0, Begin(10), H1) && Follows(H1, Begin(20), H2)
    ensures Follows(H2, End(1, 29, 0), F3) && Follows(F3, End(0, 29, 7), F4)
    ensures F4.w.user.totalBytes == 7 && F4.w.stat.totalBytes == 0 && SumBytes(Live(F4.w)) == 3
    ensures H0.w.slots[0].bytes == H1.w.slots[0].bytes == H2.w.slots[0].bytes == 0
  {
    StartOfThree();
    ThreeBegins();
    LaterJobEnds();
    EarlierJobEnds();
    assert Live(F4.w) == [QEntry(20, 2, 3)] + [QEntry(30, 0, 0)];
    SumBytesSnoc([QEntry(20, 2, 3)], QEntry(30, 0, 0));
    SumBytesSnoc([], QEntry(20, 2, 3));
    assert [] + [QEntry(20, 2, 3)] == [QEntry(20, 2, 3)];
  }

  // After the same two begins, the later job ends with five bytes, and four more jobs begin.
  const W3 := World(Window([QEntry(10, 1, 0), QEntry(20, 2, 5), QEntry(30, 1, 0)], 2, QStat(10, 0, 10), QStat(10, 5, 10)), [10], 29, 10, 0)
  const W4 := World(Window([QEntry(20, 2, 5), QEntry(30, 1, 0), QEntry(40, 2, 0)], 2, QStat(20, 5, 30), QStat(10, 5, 10)),
                    [10, 40], 40, 10, 0)
  const W5 := World(Window([QEntry(30, 1, 0), QEntry(40, 2, 0), QEntry(50, 3, 5)], 2, QStat(30, 5, 40), QStat(10, 5, 10)),
                    [10, 40, 50], 50, 10, 0)
  const W6 := World(Window([QEntry(40, 2, 0), QEntry(50, 3, 5), QEntry(60, 4, 0)], 2, QStat(40, 5, 60), QStat(10, 5, 10)),
                    [10, 40, 50, 60], 60, 10, 0)
  const W7 := World(Window([QEntry(50, 3, 5), QEntry(60, 4, 0), QEntry(70, 5, 0)], 2, QStat(50, 10, 90), QStat(10, 5, 10)),
                    [10, 40, 50, 60, 70], 70, 10, 0)

  lemma FiveBytesShared()
    ensures var slots := [QEntry(10, 1, 0), QEntry(20, 2, 0), QEntry(30, 1, 0)];
            Distribute(slots, 2, 20, 10, 5, true, 3) == Settled(W3.w.slots)
  {
    var slots := [QEntry(10, 1, 0), QEntry(20, 2, 0), QEntry(30, 1, 0)];
    assert slots[1 := slots[1].(bytes := 5)] == W3.w.slots;
  }

  lemma FiveBytesEnd()
    ensures Follows(H2, End(1, 29, 5), W3)
  {
    var e := End(1, 29, 5);
    var w := Push(H2.w, 30, 1);
    var noted := Window([QEntry(10, 1, 0), QEntry(20, 2, 0), QEntry(30, 1, 0)], 2, QStat(10, 0, 10), QStat(10, 5, 10));
    assert AdvanceHead(H2.w) == H2.w.(live := 1, stat := QStat(10, 0, 10));
    assert w.slots == noted.slots;
    assert Note(H2.w, Report(H2, e), true) == Noted(noted, 5);
    FiveBytesShared();
    assert Share(noted, Report(H2, e), 5, true) == Done(W3.w);
    assert Without(H2.open, 1) == [10];
  }

  lemma TwoMoreBegins()
    ensures Follows(W3, Begin(40), W4) && Follows(W4, Begin(50), W5)
  {
    StepIsBegan(W3, 40, true);
    StepIsBegan(W4, 50, true);
  }

  lemma LastTwoBegins()
    ensures Follows(W5, Begin(60), W6) && Follows(W6, Begin(70), W7)
  {
    StepIsBegan(W5, 60, true);
    StepIsBegan(W6, 70, true);
  }

  /** Five bytes transferred in all, and ten of them flushed: the slot that held them was reused and
      flushed again. */
  lemma FlushedBytesExceedTotal()
    ensures H0 == Start(3)
    ensures Follows(H0, Begin(10), H1) && Follows(H1, Begin(20), H2) && Follows(H2, End(1, 29, 5), W3)
    ensures Follows(W3, Begin(40), W4) && Follows(W4, Begin(50), W5)
    ensures Follows(W5, Begin(60), W6) && Follows(W6, Begin(70), W7)
    ensures W7.w.user.totalBytes == 5 && W7.w.stat.totalBytes == 10
  {
    StartOfThree();
    ThreeBegins();
    FiveBytesEnd();
    TwoMoreBegins();
    LastTwoBegins();
  }
}
