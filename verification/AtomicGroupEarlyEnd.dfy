/**
 A run in which a table does not cut evenly: the lock is released with an event left
 in the table, a second core takes the next event of the same queue, and the first
 core starts the event that was left, without the lock and after its successor.
 */
module AtomicGroupEarlyEnd {
  import opened Wrappers
  import P = DispatchPlan
  import opened AtomicGroupModel
  import opened AtomicGroupWork
  import opened EntrySeqs

  const UNLOCKED := Word(0, WRAP_PROTECT, 0)
  const LOCKED := Word(1, WRAP_PROTECT, 0)

  /** Queue 1 receives two at a time; its events 0 to 2 are of one event group, 3 and 4 of another. */
  ghost predicate Uneven(s: State) {
    && s.queues(1).multiRcv && s.queues(1).maxEvents == 2
    && s.group(Entry(1, 0)) == s.group(Entry(1, 1)) == s.group(Entry(1, 2)) == (7, 0)
    && s.group(Entry(1, 3)) == s.group(Entry(1, 4)) == (8, 0)
  }

  const TABLE := [Entry(1, 0), Entry(1, 1), Entry(1, 2), Entry(1, 3)]
  const NEXT := [Entry(1, 4)]

  /** The first core's table, before each receive: the third sees 0 with one event to go. */
  const WORK0 := Work(TABLE, [P.Step(0, 2, 2), P.Step(2, 1, 0), P.Step(3, 1, -1)], 4)
  const WORK1 := Work([Entry(1, 2), Entry(1, 3)], [P.Step(2, 1, 0), P.Step(3, 1, -1)], 2)
  const WORK2 := Work([Entry(1, 3)], [P.Step(3, 1, -1)], 0)
  const WORK3 := Work([], [], -1)
  const NEXTWORK0 := Work(NEXT, [P.Step(0, 1, 0)], 1)
  const NEXTWORK1 := Work([], [], 0)

  lemma PlannedWork(s: State)
    requires Uneven(s)
    ensures NewWork(s.queues, s.group, TABLE) == WORK0 && !TableCutsEvenly(s, TABLE)
    ensures NewWork(s.queues, s.group, NEXT) == NEXTWORK0
  {
    var t := Items(s.group, TABLE);
    assert t == [P.Item(0, 1, 7, 0), P.Item(1, 1, 7, 0), P.Item(2, 1, 7, 0), P.Item(3, 1, 8, 0)];
    P.UnevenPlan(t, s.queues);
    P.BurstCountIff(t, s.queues);
    var u := Items(s.group, NEXT);
    P.LoneEvent(P.Progress([], 1), u, s.queues, 0);
    assert [] + P.Whole(u, s.queues, 0, 1, 1) == P.Whole(u, s.queues, 0, 1, 1);
  }

  lemma WorkSteps()
    ensures CanReceive(WORK0) && Receive(WORK0) == WORK1
    ensures CanReceive(WORK1) && Receive(WORK1) == WORK2
    ensures CanReceive(WORK2) && Receive(WORK2) == WORK3
    ensures CanReceive(NEXTWORK0) && Receive(NEXTWORK0) == NEXTWORK1
    ensures WORK0.rest[..2] == TABLE[..2] && WORK1.rest[..1] == [Entry(1, 2)] && WORK2.rest[..1] == [Entry(1, 3)]
  {
  }

  const IDLE := CoreState(Idle, false, None)
  const DONE := TABLE[..3]

  /** The first core's part of the state; the second is idle. */
  ghost function Alone(s: State, first: CoreState, word: Word, taken: seq<Entry>, log: seq<Entry>): State {
    s.(cores := [first, IDLE], word := word, arrived := TABLE, taken := taken, log := log)
  }

  /** The state while the second core is at work; the first has one event left, and no lock. */
  ghost function Both(s: State, first: Work, second: CoreState, word: Word, taken: seq<Entry>, log: seq<Entry>): State {
    s.(cores := [CoreState(Dispatching(first), true, None), second],
       word := word, arrived := TABLE + NEXT, taken := taken, log := log)
  }

  ghost function First(pc: Pc, released: bool, ctx: Option<Queue>): CoreState {
    CoreState(pc, released, ctx)
  }

  ghost function TheRun(s: State): seq<State> {
    var own := Some(1);
    [ s,
      Alone(s, First(AcquireIfIdle(TABLE), false, own), UNLOCKED, [], []),
      Alone(s, First(Dispatching(WORK0), false, own), LOCKED, TABLE, []),
      Alone(s, First(Dispatching(WORK1), false, own), LOCKED, TABLE, TABLE[..2]),
      Alone(s, First(Dispatching(WORK2), false, own), LOCKED, TABLE, DONE),
      Alone(s, First(ReleaseLoad(WORK2), false, own), LOCKED, TABLE, DONE),
      Alone(s, First(ReleaseCas(WORK2, LOCKED), false, own), LOCKED, TABLE, DONE),
      Alone(s, First(Dispatching(WORK2), true, own), UNLOCKED, TABLE, DONE),
      Alone(s, First(Dispatching(WORK2), true, None), UNLOCKED, TABLE, DONE),
      Both(s, WORK2, First(AcquireIfIdle(NEXT), false, own), UNLOCKED, TABLE, DONE),
      Both(s, WORK2, First(Dispatching(NEXTWORK0), false, own), LOCKED, TABLE + NEXT, DONE),
      Both(s, WORK2, First(Dispatching(NEXTWORK1), false, own), LOCKED, TABLE + NEXT, DONE + NEXT),
      Both(s, WORK3, First(Dispatching(NEXTWORK1), false, own), LOCKED, TABLE + NEXT, DONE + NEXT + [Entry(1, 3)])
    ]
  }

  const WHO: seq<nat> := [0, 0, 0, 0, 0, 0, 0, 0, 1, 1, 1, 0]
  const ACTS := [ Schedule(1, 4), Go(0), Go(0), Go(0), ProcessingEnd, Go(0), Go(0), ReleaseCtx,
                  Schedule(1, 1), Go(0), Go(0), Go(0) ]

  ghost predicate Steps(run: seq<State>, i: nat)
    requires i < 12 && |run| == 13
  {
    Enabled(run[i], WHO[i], ACTS[i]) && Step(run[i], WHO[i], ACTS[i]) == run[i + 1]
  }

  ghost predicate StepsFrom(run: seq<State>, i: nat, j: nat)
    requires j <= 12 && |run| == 13
  {
    forall k :: i <= k < j ==> Steps(run, k)
  }

  ghost predicate Start(s: State) {
    Init(s) && Uneven(s) && s.cores == [IDLE, IDLE]
  }

  lemma GetsBurst(s: State)
    requires Start(s)
    ensures StepsFrom(TheRun(s), 0, 1)
  {
    assert Burst(1, 0, 4) == TABLE && [] + TABLE == TABLE;
    var first := CoreState(AcquireIfIdle(TABLE), false, Some(1));
    assert s.cores[0 := first] == [first, IDLE];
  }

  /** With the group idle, the burst is taken directly. */
  lemma TakesIdle(s: State, t: State, c: nat, b: seq<Entry>, w: Work)
    requires c < |s.cores| && s.cores[c].pc == AcquireIfIdle(b) && s.word == UNLOCKED
    requires NewWork(s.queues, s.group, b) == w
    requires t == s.(word := LOCKED, taken := s.taken + b, cores := s.cores[c := s.cores[c].(pc := Dispatching(w))])
    ensures Enabled(s, c, Go(0)) && Step(s, c, Go(0)) == t
  {
  }

  lemma FirstTakes(s: State, before: State, after: State)
    requires Start(s)
    requires before == Alone(s, First(AcquireIfIdle(TABLE), false, Some(1)), UNLOCKED, [], [])
    requires after == Alone(s, First(Dispatching(WORK0), false, Some(1)), LOCKED, TABLE, [])
    ensures Enabled(before, 0, Go(0)) && Step(before, 0, Go(0)) == after
  {
    PlannedWork(before);
    assert before.taken + TABLE == TABLE;
    assert after.cores == before.cores[0 := after.cores[0]];
    TakesIdle(before, after, 0, TABLE, WORK0);
  }

  lemma Takes(s: State)
    requires Start(s)
    ensures StepsFrom(TheRun(s), 1, 2)
  {
    var run := TheRun(s);
    FirstTakes(s, run[1], run[2]);
    assert Steps(run, 1);
  }

  lemma Receives(s: State)
    requires Start(s)
    ensures StepsFrom(TheRun(s), 2, 4)
  {
    var run := TheRun(s);
    WorkSteps();
    assert [] + TABLE[..2] == TABLE[..2] && TABLE[..2] + [Entry(1, 2)] == DONE;
    assert run[3].cores == run[2].cores[0 := run[3].cores[0]];
    assert run[4].cores == run[3].cores[0 := run[4].cores[0]];
    assert Steps(run, 2) && Steps(run, 3);
  }

  lemma StartsRelease(s: State)
    requires Start(s)
    ensures StepsFrom(TheRun(s), 4, 6)
  {
    var run := TheRun(s);
    assert run[5].cores == run[4].cores[0 := run[5].cores[0]];
    assert run[6].cores == run[5].cores[0 := run[6].cores[0]];
    assert Steps(run, 4) && Steps(run, 5);
  }

  lemma Releases(s: State)
    requires Start(s)
    ensures StepsFrom(TheRun(s), 6, 8)
  {
    var run := TheRun(s);
    assert run[7].cores == run[6].cores[0 := run[7].cores[0]];
    assert run[8].cores == run[7].cores[0 := run[8].cores[0]];
    assert Steps(run, 6) && Steps(run, 7);
  }

  lemma SecondGetsBurst(s: State)
    requires Start(s)
    ensures StepsFrom(TheRun(s), 8, 9)
  {
    var run := TheRun(s);
    OfOwn(1, TABLE);
    assert Burst(1, 4, 1) == NEXT;
    assert run[9].cores == run[8].cores[1 := run[9].cores[1]];
    assert Steps(run, 8);
  }

  lemma SecondTakes(s: State)
    requires Start(s)
    ensures StepsFrom(TheRun(s), 9, 10)
  {
    var run := TheRun(s);
    PlannedWork(run[9]);
    assert run[10].cores == run[9].cores[1 := run[10].cores[1]];
    TakesIdle(run[9], run[10], 1, NEXT, NEXTWORK0);
  }

  lemma BothReceive(s: State)
    requires Start(s)
    ensures StepsFrom(TheRun(s), 10, 12)
  {
    var run := TheRun(s);
    WorkSteps();
    assert NEXT[..1] == NEXT;
    assert run[11].cores == run[10].cores[1 := run[11].cores[1]];
    assert run[12].cores == run[11].cores[0 := run[12].cores[0]];
    assert Steps(run, 10) && Steps(run, 11);
  }

  lemma StepsAreRun(run: seq<State>)
    requires |run| == 13 && Init(run[0])
    requires StepsFrom(run, 0, 1) && StepsFrom(run, 1, 2) && StepsFrom(run, 2, 4) && StepsFrom(run, 4, 6)
    requires StepsFrom(run, 6, 8) && StepsFrom(run, 8, 9) && StepsFrom(run, 9, 10) && StepsFrom(run, 10, 12)
    ensures IsRun(run, WHO, ACTS)
  {
    forall i | 0 <= i < |WHO| ensures Enabled(run[i], WHO[i], ACTS[i]) && run[i + 1] == Step(run[i], WHO[i], ACTS[i]) {
      assert Steps(run, i);
    }
  }

  lemma IsTheRun(s: State)
    requires Start(s)
    ensures IsRun(TheRun(s), WHO, ACTS)
  {
    GetsBurst(s);
    Takes(s);
    Receives(s);
    StartsRelease(s);
    Releases(s);
    SecondGetsBurst(s);
    SecondTakes(s);
    BothReceive(s);
    StepsAreRun(TheRun(s));
  }

  lemma NotEven(run: seq<State>)
    requires IsRun(run, WHO, ACTS) && Uneven(run[1]) && run[1].word == UNLOCKED
    requires |run[1].cores| == 2 && run[1].cores[0].pc == AcquireIfIdle(TABLE)
    ensures !AllEven(run, WHO, ACTS)
  {
    PlannedWork(run[1]);
    assert !StartsEvenly(run[1], WHO[1], ACTS[1]);
  }

  lemma LastStep(s: State)
    ensures var t, u := TheRun(s)[11], TheRun(s)[12];
      && u.log == t.log + [Entry(1, 3)] && u.log[3] == Entry(1, 4) && u.log[4] == Entry(1, 3)
      && !Holds(t.cores[0]) && Holds(t.cores[1])
  {
  }

  /**
   From any start with two cores and these queues and headers: a run at whose last
   step core 0 starts an event without holding the lock, which core 1 holds, and after
   a later event of the same queue.
   */
  lemma EarlyReleaseBreaksOrder(s: State)
    requires Start(s)
    ensures IsRun(TheRun(s), WHO, ACTS) && !AllEven(TheRun(s), WHO, ACTS)
    ensures var t, u := TheRun(s)[11], TheRun(s)[12];
      && u.log == t.log + [Entry(1, 3)] && u.log[3] == Entry(1, 4) && u.log[4] == Entry(1, 3)
      && !Holds(t.cores[0]) && Holds(t.cores[1])
  {
    IsTheRun(s);
    NotEven(TheRun(s));
    LastStep(s);
  }
}
