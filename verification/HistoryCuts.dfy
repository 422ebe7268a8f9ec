/**
  Where the daemon cuts a session's log (`history_cut` in sessions.rs), and when a
  cut before a user message is the cut at the end of the reply before it, as
  cut_points.rs says.
 */
module HistoryCuts {
  import opened Results
  import opened CutPoints

  // --------------------------------------------------------- the daemon's cut

  /** The run open so far, with where it started, and whether it has done anything. */
  datatype Scanned = Scanned(open: Option<(RunId, nat)>, started: bool)

  predicate OfOpenRun(s: Scanned, run: Option<RunId>) {
    s.open.Some? && run == Some(s.open.value.0)
  }

  function ScanStep(s: Scanned, seqno: nat, e: Event): Scanned {
    match e
    case RunStarted(run) => Scanned(if run.Some? then Some((run.value, seqno)) else None, false)
    case RunFinished(run) => if OfOpenRun(s, run) then s.(open := None) else s
    case UserInput(run) => if OfOpenRun(s, run) then s.(started := true) else s
    case Worked(run) => if OfOpenRun(s, run) then s.(started := true) else s
    case _ => s
  }

  function Scan(log: seq<Event>): (s: Scanned)
    ensures s.open.Some? ==> 1 <= s.open.value.1 <= |log| && log[s.open.value.1 - 1] == RunStarted(Some(s.open.value.0))
  {
    if log == [] then Scanned(None, false) else ScanStep(Scan(log[..|log| - 1]), |log|, log[|log| - 1])
  }

  lemma ScanOneMore(log: seq<Event>, n: nat)
    requires n < |log|
    ensures Scan(log[..n + 1]) == ScanStep(Scan(log[..n]), n + 1, log[n])
  {
    assert log[..n + 1][..n] == log[..n];
  }

  lemma ScanSnoc(log: seq<Event>, e: Event)
    ensures Scan(log + [e]) == ScanStep(Scan(log), |log| + 1, e)
  {
    assert (log + [e])[..|log|] == log;
  }

  /** The log ends in a run that holds nothing but its start. */
  predicate EndsInEmptyRun(log: seq<Event>) {
    var s := Scan(log);
    s.open.Some? && !s.started && s.open.value.1 > 1
  }

  /** `run` starts at `start`, and since then no run starts and it neither finishes nor does anything. */
  ghost predicate JustStarted(log: seq<Event>, run: RunId, start: nat) {
    && 1 <= start <= |log| && log[start - 1] == RunStarted(Some(run))
    && forall i :: start <= i < |log| ==>
         !log[i].RunStarted? && log[i] != RunFinished(Some(run)) && log[i] != Worked(Some(run))
         && log[i] != UserInput(Some(run))
  }

  /** A run the scan holds open without having seen it do anything has just started. */
  lemma {:induction false} OpenAndUnstarted(log: seq<Event>, run: RunId, start: nat)
    ensures Scan(log).open == Some((run, start)) && !Scan(log).started <==> JustStarted(log, run, start)
  {
    if log != [] {
      var init, e := log[..|log| - 1], log[|log| - 1];
      OpenAndUnstarted(init, run, start);
      assert log == init + [e];
      if start == |log| {
        assert !JustStarted(init, run, start);
      } else {
        assert JustStarted(log, run, start) <==>
            JustStarted(init, run, start) && !e.RunStarted? && e != RunFinished(Some(run)) && e != Worked(Some(run))
            && e != UserInput(Some(run));
      }
      hide JustStarted;
    }
  }

  /** Said by the events: some run after the first event has just started. */
  lemma EmptyRunsAre(log: seq<Event>)
    ensures EndsInEmptyRun(log) <==> exists run: RunId, start: nat :: start > 1 && JustStarted(log, run, start)
  {
    forall run: RunId, start: nat
      ensures Scan(log).open == Some((run, start)) && !Scan(log).started <==> JustStarted(log, run, start)
    {
      OpenAndUnstarted(log, run, start);
    }
    hide Scan, JustStarted;
  }

  function Through(log: seq<Event>, cut: nat): seq<Event> {
    log[..if cut < |log| then cut else |log|]
  }

  /** Where the daemon cuts the log for a cut through `cut`. */
  function HistoryCut(log: seq<Event>, cut: nat): nat
    decreases cut
  {
    var kept := Through(log, cut);
    if EndsInEmptyRun(kept) then HistoryCut(log, Scan(kept).open.value.1 - 1) else cut
  }

  method FindHistoryCut(log: seq<Event>, throughSeq: nat) returns (cut: nat)
    ensures cut == HistoryCut(log, throughSeq)
  {
    hide Scan;
    cut := throughSeq;
    while true
      invariant HistoryCut(log, cut) == HistoryCut(log, throughSeq)
      decreases cut
    {
      var open: Option<(RunId, nat)>, started := None, false;
      var n := 0;
      ScanOfNothing(log);
      while n < |log| && n + 1 <= cut
        invariant n <= |log| && n <= cut
        invariant Scanned(open, started) == Scan(log[..n])
      {
        ScanOneMore(log, n);
        match log[n] {
          case RunStarted(run) =>
            open, started := if run.Some? then Some((run.value, n + 1)) else None, false;
          case RunFinished(run) =>
            if open.Some? && run == Some(open.value.0) { open := None; }
          case UserInput(run) =>
            if open.Some? && run == Some(open.value.0) { started := true; }
          case Worked(run) =>
            if open.Some? && run == Some(open.value.0) { started := true; }
          case _ =>
        }
        n := n + 1;
      }
      assert log[..n] == Through(log, cut);
      if open.Some? && !started && open.value.1 > 1 {
        cut := open.value.1 - 1;
      } else {
        return;
      }
    }
  }

  lemma ScanOfNothing(log: seq<Event>)
    ensures Scan(log[..0]) == Scanned(None, false)
  {
    assert log[..0] == [];
  }

  lemma {:induction false} EmptySinceItsStart(log: seq<Event>, p: nat)
    requires EndsInEmptyRun(log) && Scan(log).open.value.1 <= p <= |log|
    ensures Scan(log[..p]) == Scan(log)
    decreases |log|
  {
    if p == |log| {
      assert log[..p] == log;
    } else {
      var init := log[..|log| - 1];
      assert Scan(init) == Scan(log);
      EmptySinceItsStart(init, p);
      assert init[..p] == log[..p];
    }
  }

  /** The daemon keeps all it may: the greatest sequence that leaves no run holding nothing but its start. */
  lemma {:induction false} HistoryCutIsGreatest(log: seq<Event>, cut: nat)
    ensures var c := HistoryCut(log, cut);
            && c <= cut && !EndsInEmptyRun(Through(log, c))
            && forall p :: c < p <= cut ==> EndsInEmptyRun(Through(log, p))
    decreases cut
  {
    var kept := Through(log, cut);
    if EndsInEmptyRun(kept) {
      var start := Scan(kept).open.value.1;
      HistoryCutIsGreatest(log, start - 1);
      forall p | start <= p <= cut
        ensures EndsInEmptyRun(Through(log, p))
      {
        if p < |kept| {
          EmptySinceItsStart(kept, p);
          assert kept[..p] == Through(log, p);
        } else {
          assert kept == Through(log, p);
        }
      }
    }
  }

  // ---------------------------------------------------- a message after a reply

  /** Cutting the log anywhere after `from` and before `to` would leave an empty run. */
  ghost predicate OnlyEmptyRuns(log: seq<Event>, from: nat, to: nat)
    requires to <= |log|
  {
    forall p :: from < p < to ==> EndsInEmptyRun(log[..p])
  }

  lemma {:induction false} NothingOpens(log: seq<Event>, from: nat, n: nat)
    requires from <= n <= |log| && Scan(log[..from]).open.None?
    requires forall i :: from <= i < n ==> !log[i].RunStarted?
    ensures Scan(log[..n]).open.None?
    decreases n
  {
    if from < n {
      ScanOneMore(log, n - 1);
      hide Scan;
      NothingOpens(log, from, n - 1);
    }
  }

  /** No run is open where the reply's cut is, if none was when its own finished. */
  lemma NoRunOpenAtCut(log: seq<Event>, item: nat)
    requires Complete(After(log), item) && Scan(log[..FinishOf(log, item)]).open.None?
    ensures Increasing(After(log).boundaries) && ReplyCut(After(log), item).Some?
    ensures var c := ReplyCut(After(log), item).value;
            FinishOf(log, item) <= c <= |log| && !EndsInEmptyRun(log[..c])
  {
    CutIsGreatest(log, item);
    EveryLogIsNoted(log);
    var finished, c := FinishOf(log, item), ReplyCut(After(log), item).value;
    hide ReplyCut, Scan;
    forall i | finished <= i < c
      ensures !log[i].RunStarted?
    {
      if log[i].RunStarted? { RunStartIsBoundary(log, i); }
    }
    NothingOpens(log, finished, c);
  }

  /** The daemon cuts at the end of a reply just where it is asked to. */
  lemma ReplyCutStands(log: seq<Event>, item: nat)
    requires Complete(After(log), item) && Scan(log[..FinishOf(log, item)]).open.None?
    ensures Increasing(After(log).boundaries) && ReplyCut(After(log), item).Some?
    ensures var c := ReplyCut(After(log), item).value; HistoryCut(log, c) == c
  {
    NoRunOpenAtCut(log, item);
    var c := ReplyCut(After(log), item).value;
    assert Through(log, c) == log[..c];
    hide After, ReplyCut, Scan;
  }

  /** A sequence that leaves no empty run is the daemon's cut exactly when only empty runs come after it. */
  lemma CutsAt(log: seq<Event>, message: nat, c: nat)
    requires 1 <= message <= |log| && c <= |log| && !EndsInEmptyRun(log[..c])
    ensures HistoryCut(log, message - 1) == c <==> c < message && OnlyEmptyRuns(log, c, message)
  {
    HistoryCutIsGreatest(log, message - 1);
    hide HistoryCut, EndsInEmptyRun;
    assert forall p :: 0 <= p <= |log| ==> Through(log, p) == log[..p];
  }

  /**
    A user message after a reply whose run has closed: cutting before the message
    cuts at the end of the reply exactly when all there is between the two is runs
    that hold nothing but their start.
   */
  lemma UserMessageCutsAtTheReply(log: seq<Event>, item: nat, message: nat)
    requires Complete(After(log), item) && FinishOf(log, item) < message <= |log|
    requires Scan(log[..FinishOf(log, item)]).open.None?
    ensures Increasing(After(log).boundaries) && ReplyCut(After(log), item).Some?
    ensures var c := ReplyCut(After(log), item).value;
            HistoryCut(log, BeforeUserMessage(message)) == c <==> c < message && OnlyEmptyRuns(log, c, message)
  {
    NoRunOpenAtCut(log, item);
    assert BeforeUserMessage(message) == message - 1;
    hide After, ReplyCut, HistoryCut, Scan, EndsInEmptyRun, OnlyEmptyRuns;
    CutsAt(log, message, ReplyCut(After(log), item).value);
  }

  // ------------------------------------------------------- one run at a time

  ghost predicate InTurn(log: seq<Event>, i: nat)
    requires i < |log|
  {
    && (log[i].RunStarted? ==> log[i].run.Some? && Scan(log[..i]).open.None?)
    && (log[i].RunFinished? && log[i].run.Some? ==> OfOpenRun(Scan(log[..i]), log[i].run))
  }

  /** Runs do not overlap: one starts while none is open, and the open one finishes. */
  ghost predicate RunsInTurn(log: seq<Event>) {
    forall i :: 0 <= i < |log| ==> InTurn(log, i)
  }

  /** `run` does nothing between its start and `message`. */
  ghost predicate Waits(log: seq<Event>, run: RunId, start: nat, message: nat)
    requires message <= |log|
  {
    forall i :: start <= i < message - 1 ==> log[i] != Worked(Some(run)) && log[i] != UserInput(Some(run))
  }

  /** `run`, started at `start`, is still the open one just before `message`. */
  ghost predicate OpenUntil(log: seq<Event>, run: RunId, start: nat, message: nat)
    requires message <= |log|
  {
    && 1 <= start < message && log[start - 1] == RunStarted(Some(run))
    && forall i :: start <= i < message - 1 ==> !log[i].RunStarted? && log[i] != RunFinished(Some(run))
  }

  lemma WaitsOneMore(log: seq<Event>, run: RunId, start: nat, n: nat)
    requires start <= n < |log|
    ensures Waits(log, run, start, start + 1)
    ensures start < n ==>
              (Waits(log, run, start, n + 1) <==>
               Waits(log, run, start, n) && log[n - 1] != Worked(Some(run)) && log[n - 1] != UserInput(Some(run)))
  {
  }

  lemma {:induction false} OpenSince(log: seq<Event>, run: RunId, start: nat, n: nat)
    requires n < |log| && OpenUntil(log, run, start, n + 1)
    ensures Scan(log[..n]).open == Some((run, start))
    ensures !Scan(log[..n]).started <==> Waits(log, run, start, n + 1)
    decreases n
  {
    ScanOneMore(log, n - 1);
    hide Scan, Waits;
    WaitsOneMore(log, run, start, n);
    if start < n { OpenSince(log, run, start, n - 1); }
  }

  lemma WaitsWhileEmpty(log: seq<Event>, run: RunId, start: nat, message: nat)
    requires message <= |log| && 1 < start && OpenUntil(log, run, start, message)
    ensures OnlyEmptyRuns(log, start - 1, message) <==> Waits(log, run, start, message)
  {
    forall p | start <= p < message
      ensures EndsInEmptyRun(log[..p]) <==> Waits(log, run, start, p + 1)
    {
      OpenSince(log, run, start, p);
    }
    hide EndsInEmptyRun;
    assert OnlyEmptyRuns(log, start - 1, message) ==> EndsInEmptyRun(log[..message - 1]);
  }

  lemma FinishCloses(log: seq<Event>, n: nat)
    requires RunsInTurn(log) && 1 <= n <= |log| && log[n - 1].RunFinished? && log[n - 1].run.Some?
    ensures Scan(log[..n]).open.None?
  {
    assert InTurn(log, n - 1);
    ScanOneMore(log, n - 1);
    hide Scan, RunsInTurn;
  }

  lemma ClosedInTurn(log: seq<Event>, item: nat)
    requires RunsInTurn(log) && Complete(After(log), item)
    ensures Scan(log[..FinishOf(log, item)]).open.None?
  {
    FinishedAt(log, After(log).runs[item]);
    hide RunsInTurn, Scan, After;
    FinishCloses(log, FinishOf(log, item));
  }

  /** Nothing starts between the reply and `start`. */
  ghost predicate FirstAfter(log: seq<Event>, item: nat, start: nat)
    requires Complete(After(log), item)
  {
    forall x :: x in After(log).boundaries ==> !(FinishOf(log, item) < x < start)
  }

  lemma FirstIsAfterTheCut(log: seq<Event>, item: nat, start: nat)
    requires Complete(After(log), item) && FinishOf(log, item) < start <= |log| && log[start - 1].RunStarted?
    ensures Increasing(After(log).boundaries) && ReplyCut(After(log), item).Some?
    ensures var c := ReplyCut(After(log), item).value;
            c < start && (FirstAfter(log, item, start) <==> c == start - 1)
  {
    StartedBoundary(log, start);
    CutBefore(After(log), log, item, start);
    hide After, Complete, ReplyCut, Increasing;
  }

  lemma StartedBoundary(log: seq<Event>, start: nat)
    requires 1 <= start <= |log| && log[start - 1].RunStarted?
    ensures Noted(After(log), log) && start in After(log).boundaries
  {
    EveryLogIsNoted(log);
    RunStartIsBoundary(log, start - 1);
  }

  lemma CutBefore(s: State, log: seq<Event>, item: nat, start: nat)
    requires Noted(s, log) && Complete(s, item) && s.finishes[s.runs[item]] < start && start in s.boundaries
    ensures ReplyCut(s, item).Some?
    ensures var finished, c := s.finishes[s.runs[item]], ReplyCut(s, item).value;
            c < start && ((forall x :: x in s.boundaries ==> !(finished < x < start)) <==> c == start - 1)
  {
    CutKeepsOnly(s, log, item);
    hide ReplyCut;
  }

  /**
    The message of a run that is open: cutting before it cuts at the end of the
    reply exactly when its run is the first thing that starts after the reply, and
    has done nothing before the message.
   */
  lemma OwnRunCutsAtTheReply(log: seq<Event>, item: nat, run: RunId, start: nat, message: nat)
    requires RunsInTurn(log) && Complete(After(log), item) && FinishOf(log, item) < start
    requires message <= |log| && OpenUntil(log, run, start, message) && log[message - 1] == UserInput(Some(run))
    ensures Increasing(After(log).boundaries) && ReplyCut(After(log), item).Some?
    ensures HistoryCut(log, BeforeUserMessage(message)) == ReplyCut(After(log), item).value <==>
            FirstAfter(log, item, start) && Waits(log, run, start, message)
  {
    ClosedInTurn(log, item);
    FirstIsAfterTheCut(log, item, start);
    UserMessageCutsAtTheReply(log, item, message);
    WaitsWhileEmpty(log, run, start, message);
    assert InTurn(log, start - 1);
    assert !EndsInEmptyRun(log[..start - 1]);
    hide After, ReplyCut, Scan, RunsInTurn, HistoryCut, EndsInEmptyRun, Waits, OpenUntil, FirstAfter;
    var c := ReplyCut(After(log), item).value;
    assert c < start - 1 ==> !OnlyEmptyRuns(log, c, message);
  }

  // --------------------------------------------------------- two short logs

  const REPLY := [RunStarted(Some(1)), BlockShown(7, Some(1)), RunFinished(Some(1))]

  /** What the fold keeps of `REPLY`, with more after it. */
  function Later(lastSeq: nat, activeRun: Option<RunId>, boundaries: seq<nat>): State {
    State(lastSeq, activeRun, map[7 := 1], map[1 := 7], map[1 := 3], boundaries)
  }

  lemma ReplyNoted()
    ensures After(REPLY) == Later(3, None, [1]) && Scan(REPLY) == Scanned(None, false)
  {
    var a, b := REPLY[..1], REPLY[..2];
    assert a == [RunStarted(Some(1))] && a[..0] == [] && b[..1] == a && REPLY[..2] == b;
    assert After(a) == State(1, Some(1), map[], map[], map[], [1]);
    assert After(b) == State(2, Some(1), map[7 := 1], map[1 := 7], map[], [1]);
    assert Scan(a) == Scanned(Some((1, 1)), false) && Scan(b) == Scan(a);
  }

  lemma StepOfStart(lastSeq: nat, activeRun: Option<RunId>, boundaries: seq<nat>, e: Event)
    requires Inserted(boundaries, lastSeq + 1) == boundaries + [lastSeq + 1]
    requires e.RunStarted? || (e.Arrived? && activeRun.None?)
    ensures Step(Later(lastSeq, activeRun, boundaries), e) ==
            Later(lastSeq + 1, if e.RunStarted? then e.run else activeRun, boundaries + [lastSeq + 1])
  {
    hide Inserted;
  }

  lemma StartsAtFourAndFive()
    ensures Inserted([1], 4) == [1] + [4] == [1, 4] && Inserted([1, 4], 5) == [1, 4] + [5] == [1, 4, 5]
  {
    assert [1, 4][1..] == [4] && [4][1..] == [] && [1][1..] == [];
    assert Inserted([4], 5) == [4, 5];
  }

  lemma CutAtThree(lastSeq: nat, activeRun: Option<RunId>, boundaries: seq<nat>)
    requires Increasing(boundaries) && 4 in boundaries
    ensures ReplyCut(Later(lastSeq, activeRun, boundaries), 7) == Some(3)
  {
    hide NextFrom;
  }

  /** A cut at a run that has done nothing goes back to before its start. */
  lemma StepsBack(log: seq<Event>, cut: nat)
    requires cut <= |log| && EndsInEmptyRun(log[..cut]) && !EndsInEmptyRun(log[..Scan(log[..cut]).open.value.1 - 1])
    ensures HistoryCut(log, cut) == Scan(log[..cut]).open.value.1 - 1
  {
    assert Through(log, cut) == log[..cut];
    var start := Scan(log[..cut]).open.value.1;
    assert Through(log, start - 1) == log[..start - 1];
    hide Scan, Through;
  }

  /** Just before a message its own run has started: the daemon's cut is needed to end at the reply. */
  lemma MessageFollowsItsRun()
    ensures var log := REPLY + [RunStarted(Some(2))] + [UserInput(Some(2))];
            && Increasing(After(log).boundaries)
            && ReplyCut(After(log), 7) == Some(3) && BeforeUserMessage(5) == 4 && HistoryCut(log, 4) == 3
  {
    ReplyNoted();
    var begun := REPLY + [RunStarted(Some(2))];
    var log := begun + [UserInput(Some(2))];
    AfterOne(REPLY, RunStarted(Some(2)));
    AfterOne(begun, UserInput(Some(2)));
    StartsAtFourAndFive();
    StepOfStart(3, None, [1], RunStarted(Some(2)));
    CutAtThree(5, Some(2), [1, 4]);
    assert log[..4] == begun && log[..3] == REPLY && begun[..3] == REPLY;
    ScanOneMore(begun, 3);
    hide After, ReplyCut, Scan, HistoryCut;
    StepsBack(log, 4);
  }

  lemma ArrivedThenStarted()
    ensures var arrived := REPLY + [Arrived];
            var begun := arrived + [RunStarted(Some(2))];
            && Scan(arrived) == Scanned(None, false) && Scan(begun) == Scanned(Some((2, 5)), false)
            && After(begun) == Later(5, Some(2), [1, 4, 5])
  {
    ReplyNoted();
    StartsAtFourAndFive();
    var arrived := REPLY + [Arrived];
    var begun := arrived + [RunStarted(Some(2))];
    AfterOne(REPLY, Arrived);
    AfterOne(arrived, RunStarted(Some(2)));
    StepOfStart(3, None, [1], Arrived);
    StepOfStart(4, None, [1, 4], RunStarted(Some(2)));
    ScanSnoc(REPLY, Arrived);
    ScanSnoc(arrived, RunStarted(Some(2)));
    assert |REPLY| == 3;
    hide After, Scan, Step, REPLY;
  }

  /** A producer's message in between stays in the cut before the user's message, and not in the reply's. */
  lemma ArrivalStaysBeforeTheMessage()
    ensures var log := REPLY + [Arrived] + [RunStarted(Some(2))] + [UserInput(Some(2))];
            && Increasing(After(log).boundaries)
            && ReplyCut(After(log), 7) == Some(3) && HistoryCut(log, BeforeUserMessage(6)) == 4
  {
    ArrivedThenStarted();
    var arrived := REPLY + [Arrived];
    var begun := arrived + [RunStarted(Some(2))];
    var log := begun + [UserInput(Some(2))];
    AfterOne(begun, UserInput(Some(2)));
    CutAtThree(6, Some(2), [1, 4, 5]);
    assert |REPLY| == 3 && log[..5] == begun && log[..4] == arrived;
    hide After, ReplyCut, Scan, HistoryCut, REPLY;
    StepsBack(log, 5);
  }
}
