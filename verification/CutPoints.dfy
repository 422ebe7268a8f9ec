/**
  Where a revert or fork cuts a session's history (cut_points.rs), over the
  fields the fold of the session's log keeps for it (reduce.rs). The log has no
  gaps: its event at index `i` has sequence `i + 1`, and a revert truncates it.
 */
module CutPoints {
  import opened Results

  type RunId = nat

  /** The log's events, as far as cuts depend on them. */
  datatype Event =
    | RunStarted(run: Option<RunId>)
    | RunFinished(run: Option<RunId>)
    | BlockShown(item: nat, run: Option<RunId>) // any event that opens the block below the others
    | Arrived                                   // a producer's message or a goal
    | Compacted(inputThrough: nat)
    | UserInput(run: Option<RunId>)             // a user message submitted
    | Worked(run: Option<RunId>)                // input applied, a model attempt or a tool call started
    | Other

  datatype State = State(
    lastSeq: nat, activeRun: Option<RunId>, runs: map<nat, RunId>,
    lastBlocks: map<RunId, nat>, finishes: map<RunId, nat>, boundaries: seq<nat>)

  // ------------------------------------------------------------ the boundaries

  predicate Increasing(s: seq<nat>) {
    forall i, j :: 0 <= i < j < |s| ==> s[i] < s[j]
  }

  function Inserted(s: seq<nat>, x: nat): (r: seq<nat>)
    ensures forall y :: y in r <==> y in s || y == x
    ensures Increasing(s) ==> Increasing(r)
  {
    if s == [] then [x]
    else if x < s[0] then [x] + s
    else if x == s[0] then s
    else
      var rest := Inserted(s[1..], x);
      assert forall y :: y in s <==> y == s[0] || y in s[1..];
      assert forall i :: 0 <= i < |rest| ==> rest[i] in rest;
      [s[0]] + rest
  }

  /** The first of `s` that is at least `from`. */
  function NextFrom(s: seq<nat>, from: nat): (r: Option<nat>)
    requires Increasing(s)
    ensures r.None? <==> forall x :: x in s ==> x < from
    ensures r.Some? ==> r.value in s && from <= r.value && forall x :: x in s && from <= x ==> r.value <= x
  {
    if s == [] then None
    else
      assert forall y :: y in s <==> y == s[0] || y in s[1..];
      assert s[0] in s;
      if from <= s[0] then Some(s[0]) else NextFrom(s[1..], from)
  }

  // -------------------------------------------------------------- the log's fold

  /** The sequence from which on an event's doing is no part of an earlier reply. */
  function Boundary(s: State, seqno: nat, e: Event): Option<nat> {
    match e
    case RunStarted(_) => Some(seqno)
    case Arrived => if s.activeRun.None? then Some(seqno) else None
    case Compacted(through) =>
      if s.activeRun.None? then Some(if through + 1 < seqno then through + 1 else seqno) else None
    case _ => None
  }

  function Step(s: State, e: Event): State {
    var seqno := s.lastSeq + 1;
    var start := Boundary(s, seqno, e);
    var noted := s.(lastSeq := seqno,
                    boundaries := if start.Some? then Inserted(s.boundaries, start.value) else s.boundaries);
    match e
    case RunStarted(run) => noted.(activeRun := run)
    case RunFinished(run) =>
      noted.(activeRun := None,
             finishes := if run.Some? then noted.finishes[run.value := seqno] else noted.finishes)
    case BlockShown(item, run) =>
      if run.None? then noted
      else noted.(runs := noted.runs[item := run.value], lastBlocks := noted.lastBlocks[run.value := item])
    case _ => noted
  }

  const EMPTY := State(0, None, map[], map[], map[], [])

  function After(log: seq<Event>): State {
    if log == [] then EMPTY else Step(After(log[..|log| - 1]), log[|log| - 1])
  }

  method Fold(log: seq<Event>) returns (s: State)
    ensures s == After(log)
  {
    s := EMPTY;
    for i := 0 to |log|
      invariant s == After(log[..i])
    {
      assert log[..i + 1][..i] == log[..i];
      s := Step(s, log[i]);
    }
    assert log[..|log|] == log;
  }

  /** Every state a log leaves: nothing it notes lies past the log's end. */
  ghost predicate Noted(s: State, log: seq<Event>) {
    && s.lastSeq == |log|
    && Increasing(s.boundaries)
    && (forall x :: x in s.boundaries ==> 1 <= x <= |log|)
    && (forall run :: run in s.finishes ==>
          1 <= s.finishes[run] <= |log| && log[s.finishes[run] - 1] == RunFinished(Some(run)))
  }

  lemma StepNotesBoundaries(s: State, e: Event)
    requires Increasing(s.boundaries) && forall x :: x in s.boundaries ==> 1 <= x <= s.lastSeq
    ensures var after := Step(s, e);
            && after.lastSeq == s.lastSeq + 1
            && Increasing(after.boundaries) && forall x :: x in after.boundaries ==> 1 <= x <= after.lastSeq
  {
    var start := Boundary(s, s.lastSeq + 1, e);
    assert start.Some? ==> 1 <= start.value <= s.lastSeq + 1;
    hide Boundary, Inserted;
  }

  lemma StepNotesFinishes(s: State, e: Event)
    ensures Step(s, e).finishes ==
            if e.RunFinished? && e.run.Some? then s.finishes[e.run.value := s.lastSeq + 1] else s.finishes
  {
  }

  lemma StepIsNoted(s: State, log: seq<Event>, e: Event)
    requires Noted(s, log)
    ensures Noted(Step(s, e), log + [e])
  {
    StepNotesBoundaries(s, e);
    StepNotesFinishes(s, e);
    hide Step, Increasing;
  }

  lemma {:induction false} EveryLogIsNoted(log: seq<Event>)
    ensures Noted(After(log), log)
  {
    if log != [] {
      var init := log[..|log| - 1];
      EveryLogIsNoted(init);
      hide Step;
      StepIsNoted(After(init), init, log[|log| - 1]);
      assert log == init + [log[|log| - 1]];
    }
  }

  // -------------------------------------------------------------------- the cuts

  /** Just before the message, but never before the log's first event. */
  function BeforeUserMessage(seqno: nat): (cut: nat)
    ensures cut >= 1 && (seqno > 1 ==> cut + 1 == seqno)
  {
    if seqno <= 2 then 1 else seqno - 1
  }

  /** Whether the reply that ends with the block `item` is complete. */
  predicate Complete(s: State, item: nat) {
    && item in s.runs
    && s.runs[item] in s.finishes
    && s.runs[item] in s.lastBlocks && s.lastBlocks[s.runs[item]] == item
  }

  /** The sequence a cut that keeps the reply ending with `item` cuts through. */
  function ReplyCut(s: State, item: nat): Option<nat>
    requires Increasing(s.boundaries)
  {
    if item !in s.runs then None
    else
      var run := s.runs[item];
      if run !in s.finishes then None
      else
        var finished := s.finishes[run];
        if run !in s.lastBlocks || s.lastBlocks[run] != item then None
        else
          var next := NextFrom(s.boundaries, finished + 1);
          var cut := if next.Some? then next.value - 1 else s.lastSeq;
          Some(if cut < finished then finished else cut)
  }

  datatype ReplyEnd = ReplyEnd(throughSeq: nat, atTip: bool)

  function ReplyPoint(s: State, item: nat): Option<ReplyEnd>
    requires Increasing(s.boundaries)
  {
    var cut := ReplyCut(s, item);
    if cut.None? then None else Some(ReplyEnd(cut.value, cut.value >= s.lastSeq))
  }

  /** Keeping the history through `c` keeps the reply finished at `finished` and starts nothing after it. */
  ghost predicate KeepsOnly(s: State, finished: nat, c: int) {
    finished <= c <= s.lastSeq && forall x :: x in s.boundaries ==> !(finished < x <= c)
  }

  lemma CutKeepsOnly(s: State, log: seq<Event>, item: nat)
    requires Noted(s, log)
    ensures ReplyCut(s, item).Some? <==> Complete(s, item)
    ensures Complete(s, item) ==>
              var finished, c := s.finishes[s.runs[item]], ReplyCut(s, item).value;
              && KeepsOnly(s, finished, c)
              && (c == s.lastSeq || c + 1 in s.boundaries)
  {
  }

  /** The cut keeps all it may: the greatest sequence that starts nothing after the reply. */
  lemma CutIsGreatest(log: seq<Event>, item: nat)
    ensures var s := After(log);
            Increasing(s.boundaries) && (ReplyCut(s, item).Some? <==> Complete(s, item))
    ensures var s := After(log);
            Complete(s, item) ==>
              var finished, c := s.finishes[s.runs[item]], ReplyCut(s, item).value;
              KeepsOnly(s, finished, c) && forall other: int :: KeepsOnly(s, finished, other) ==> other <= c
  {
    EveryLogIsNoted(log);
    CutKeepsOnly(After(log), log, item);
    hide After, ReplyCut;
  }

  /** A run shows no new block once it finished. */
  ghost predicate RunsEnd(log: seq<Event>) {
    forall i, j :: 0 <= i < j < |log| && log[i].RunFinished? && log[i].run.Some? && log[j].BlockShown? ==>
      log[j].run != log[i].run
  }

  /** The reply ending with `item` is that of `run`, finished at `finished`. */
  ghost predicate Replied(s: State, item: nat, run: RunId, finished: nat) {
    Complete(s, item) && s.runs[item] == run && s.finishes[run] == finished
  }

  lemma StepAfterReply(s: State, e: Event, item: nat, run: RunId, finished: nat)
    requires Replied(Step(s, e), item, run, finished)
    requires finished <= s.lastSeq && !(e.BlockShown? && e.run == Some(run))
    ensures Replied(s, item, run, finished)
    ensures forall x :: x in s.boundaries ==> x in Step(s, e).boundaries
  {
    hide Boundary;
  }

  lemma NoBlockAfterFinish(log: seq<Event>, run: RunId, finished: nat)
    requires RunsEnd(log) && 1 <= finished < |log| && log[finished - 1] == RunFinished(Some(run))
    ensures var e := log[|log| - 1]; !(e.BlockShown? && e.run == Some(run))
    ensures RunsEnd(log[..|log| - 1])
  {
  }

  lemma FinishedAt(log: seq<Event>, run: RunId)
    requires run in After(log).finishes
    ensures var finished := After(log).finishes[run];
            1 <= finished <= |log| && log[finished - 1] == RunFinished(Some(run))
  {
    EveryLogIsNoted(log);
    hide After;
  }

  lemma LastStepAfterReply(log: seq<Event>, item: nat, run: RunId, finished: nat)
    requires RunsEnd(log) && finished < |log| && Replied(After(log), item, run, finished)
    ensures var init := log[..|log| - 1];
            && RunsEnd(init) && Replied(After(init), item, run, finished)
            && forall x :: x in After(init).boundaries ==> x in After(log).boundaries
  {
    hide Step, After, RunsEnd, Replied, Noted;
    var init, e := log[..|log| - 1], log[|log| - 1];
    LastStep(log);
    RepliedAt(log, item, run, finished);
    NoBlockAfterFinish(log, run, finished);
    StepAfterReply(After(init), e, item, run, finished);
  }

  lemma LastStep(log: seq<Event>)
    requires log != []
    ensures var init := log[..|log| - 1];
            After(log) == Step(After(init), log[|log| - 1]) && After(init).lastSeq == |init|
  {
    EveryLogIsNoted(log[..|log| - 1]);
  }

  lemma RepliedAt(log: seq<Event>, item: nat, run: RunId, finished: nat)
    requires Replied(After(log), item, run, finished)
    ensures 1 <= finished <= |log| && log[finished - 1] == RunFinished(Some(run))
  {
    EveryLogIsNoted(log);
    hide After;
    NotedAt(After(log), log, item, run, finished);
  }

  lemma NotedAt(s: State, log: seq<Event>, item: nat, run: RunId, finished: nat)
    requires Noted(s, log) && Replied(s, item, run, finished)
    ensures 1 <= finished <= |log| && log[finished - 1] == RunFinished(Some(run))
  {
    assert run in s.finishes && s.finishes[run] == finished;
    hide Replied, Increasing;
  }

  /** Dropping events after a reply's finish leaves the reply complete, and adds no boundary. */
  lemma {:induction false} PrefixKeepsReply(log: seq<Event>, item: nat, run: RunId, finished: nat, n: nat)
    requires RunsEnd(log) && finished <= n <= |log|
    requires Replied(After(log), item, run, finished)
    ensures Replied(After(log[..n]), item, run, finished)
    ensures forall x :: x in After(log[..n]).boundaries ==> x in After(log).boundaries
    decreases |log|
  {
    if n == |log| {
      assert log[..n] == log;
    } else {
      var init := log[..|log| - 1];
      hide After, RunsEnd, Replied;
      LastStepAfterReply(log, item, run, finished);
      PrefixKeepsReply(init, item, run, finished, n);
      assert init[..n] == log[..n];
    }
  }

  /** Reverting to a reply's end and folding again offers the same cut, now at the tip. */
  lemma RevertedReplyIsAtTheTip(log: seq<Event>, item: nat)
    requires RunsEnd(log) && Complete(After(log), item)
    ensures Increasing(After(log).boundaries) && ReplyCut(After(log), item).Some?
    ensures var c := ReplyCut(After(log), item).value;
            && c <= |log|
            && Increasing(After(log[..c]).boundaries)
            && ReplyPoint(After(log[..c]), item) == Some(ReplyEnd(c, true))
  {
    CutIsGreatest(log, item);
    EveryLogIsNoted(log);
    var s := After(log);
    var c := ReplyCut(s, item).value;
    PrefixKeepsReply(log, item, s.runs[item], s.finishes[s.runs[item]], c);
    EveryLogIsNoted(log[..c]);
  }

  lemma CutIs(s: State, log: seq<Event>, item: nat, c: nat)
    requires Noted(s, log) && Complete(s, item)
    requires KeepsOnly(s, s.finishes[s.runs[item]], c) && (c == s.lastSeq || c + 1 in s.boundaries)
    ensures ReplyCut(s, item) == Some(c)
  {
    CutKeepsOnly(s, log, item);
    hide ReplyCut;
  }

  /** The last block of the reply's run is another once one is shown below it. */
  predicate ShowsAnother(s: State, item: nat, e: Event)
    requires item in s.runs
  {
    e.BlockShown? && e.item != item && e.run == Some(s.runs[item])
  }

  /**
    Where the cut of a complete reply goes with one more event `e`: what starts
    something after the finish fixes it there, and anything else moves it along
    while nothing has started.
   */
  function CutAfter(s: State, item: nat, e: Event): Option<nat>
    requires Increasing(s.boundaries) && Complete(s, item)
  {
    if ShowsAnother(s, item, e) then None
    else if e == RunFinished(Some(s.runs[item])) then Some(s.lastSeq + 1)
    else Some(MovedCut(s, s.finishes[s.runs[item]], ReplyCut(s, item).value, e))
  }

  function MovedCut(s: State, finished: nat, c: nat, e: Event): nat {
    var start := Boundary(s, s.lastSeq + 1, e);
    if start.Some? && finished < start.value <= c then start.value - 1
    else if (start.Some? && finished < start.value) || c < s.lastSeq then c
    else s.lastSeq + 1
  }

  /** Each event of a log moves a complete reply's cut so; a block shown again keeps its run. */
  lemma CutMovedByEvent(log: seq<Event>, item: nat, e: Event)
    requires Complete(After(log), item)
    requires e.BlockShown? && e.item == item && e.run.Some? ==> e.run == Some(After(log).runs[item])
    ensures Increasing(After(log).boundaries) && Increasing(After(log + [e]).boundaries)
    ensures ReplyCut(After(log + [e]), item) == CutAfter(After(log), item, e)
  {
    AfterOne(log, e);
    EveryLogIsNoted(log);
    hide After;
    CutAfterStep(After(log), log, item, e);
  }

  lemma AfterOne(log: seq<Event>, e: Event)
    ensures After(log + [e]) == Step(After(log), e)
  {
    assert (log + [e])[..|log|] == log;
  }

  lemma CutAfterStep(s: State, log: seq<Event>, item: nat, e: Event)
    requires Noted(s, log) && Complete(s, item)
    requires e.BlockShown? && e.item == item && e.run.Some? ==> e.run == Some(s.runs[item])
    ensures Increasing(Step(s, e).boundaries) && ReplyCut(Step(s, e), item) == CutAfter(s, item, e)
  {
    StepIsNoted(s, log, e);
    assert Increasing(s.boundaries) && Increasing(Step(s, e).boundaries);
    hide Noted, Step, Increasing, ReplyCut, MovedCut;
    if ShowsAnother(s, item, e) {
      EndsElsewhere(s, item, e);
      CutKeepsOnly(Step(s, e), log + [e], item);
    } else if e == RunFinished(Some(s.runs[item])) {
      CutFinishedAgain(s, log, item, e);
    } else {
      CutMovesTo(s, log, item, e);
    }
  }

  lemma CutFinishedAgain(s: State, log: seq<Event>, item: nat, e: Event)
    requires Noted(s, log) && Complete(s, item) && e == RunFinished(Some(s.runs[item]))
    ensures Increasing(Step(s, e).boundaries) && ReplyCut(Step(s, e), item) == Some(s.lastSeq + 1)
  {
    StepIsNoted(s, log, e);
    FinishedAgain(s, item, e);
    assert Increasing(Step(s, e).boundaries);
    hide Noted, Step, KeepsOnly, ReplyCut;
    CutIs(Step(s, e), log + [e], item, s.lastSeq + 1);
  }

  lemma CutMovesTo(s: State, log: seq<Event>, item: nat, e: Event)
    requires Noted(s, log) && Complete(s, item) && !ShowsAnother(s, item, e) && e != RunFinished(Some(s.runs[item]))
    requires e.BlockShown? && e.item == item && e.run.Some? ==> e.run == Some(s.runs[item])
    ensures Increasing(s.boundaries) && ReplyCut(s, item).Some? && Increasing(Step(s, e).boundaries)
    ensures ReplyCut(Step(s, e), item) == Some(MovedCut(s, s.finishes[s.runs[item]], ReplyCut(s, item).value, e))
  {
    StepIsNoted(s, log, e);
    CutKeepsOnly(s, log, item);
    var c := ReplyCut(s, item).value;
    assert Increasing(s.boundaries) && Increasing(Step(s, e).boundaries);
    assert forall x :: x in s.boundaries ==> x <= s.lastSeq;
    hide Noted, Step, KeepsOnly, ReplyCut, MovedCut, ShowsAnother, Increasing;
    CutMoves(s, item, e, c);
    CutIs(Step(s, e), log + [e], item, MovedCut(s, s.finishes[s.runs[item]], c, e));
  }

  lemma EndsElsewhere(s: State, item: nat, e: Event)
    requires Complete(s, item) && ShowsAnother(s, item, e)
    ensures !Complete(Step(s, e), item)
  {
  }

  lemma FinishedAgain(s: State, item: nat, e: Event)
    requires Complete(s, item) && e == RunFinished(Some(s.runs[item]))
    requires forall x :: x in s.boundaries ==> x <= s.lastSeq
    ensures var after := Step(s, e);
            && Complete(after, item)
            && after.lastSeq == s.lastSeq + 1 && after.finishes[after.runs[item]] == s.lastSeq + 1
            && KeepsOnly(after, s.lastSeq + 1, s.lastSeq + 1)
  {
  }

  lemma CutMoves(s: State, item: nat, e: Event, c: nat)
    requires Complete(s, item) && !ShowsAnother(s, item, e) && e != RunFinished(Some(s.runs[item]))
    requires e.BlockShown? && e.item == item && e.run.Some? ==> e.run == Some(s.runs[item])
    requires forall x :: x in s.boundaries ==> x <= s.lastSeq
    requires KeepsOnly(s, s.finishes[s.runs[item]], c) && (c == s.lastSeq || c + 1 in s.boundaries)
    ensures var after := Step(s, e);
            var moved := MovedCut(s, s.finishes[s.runs[item]], c, e);
            && Complete(after, item)
            && after.finishes[after.runs[item]] == s.finishes[s.runs[item]]
            && KeepsOnly(after, s.finishes[s.runs[item]], moved)
            && (moved == after.lastSeq || moved + 1 in after.boundaries)
  {
    hide KeepsOnly, MovedCut;
    StepAddsStart(s, e);
    MovedKeepsOnly(s, Step(s, e), s.finishes[s.runs[item]], c, e);
  }

  lemma StepAddsStart(s: State, e: Event)
    ensures var after, start := Step(s, e), Boundary(s, s.lastSeq + 1, e);
            && after.lastSeq == s.lastSeq + 1
            && (forall x :: x in after.boundaries <==> x in s.boundaries || start == Some(x))
            && (start.Some? ==> start.value <= s.lastSeq + 1)
  {
  }

  lemma MovedKeepsOnly(s: State, after: State, finished: nat, c: nat, e: Event)
    requires forall x :: x in s.boundaries ==> x <= s.lastSeq
    requires KeepsOnly(s, finished, c) && (c == s.lastSeq || c + 1 in s.boundaries)
    requires var start := Boundary(s, s.lastSeq + 1, e);
             && after.lastSeq == s.lastSeq + 1
             && (forall x :: x in after.boundaries <==> x in s.boundaries || start == Some(x))
             && (start.Some? ==> start.value <= s.lastSeq + 1)
    ensures var moved := MovedCut(s, finished, c, e);
            KeepsOnly(after, finished, moved) && (moved == after.lastSeq || moved + 1 in after.boundaries)
  {
    hide Boundary;
  }

  // ------------------------------------------------------- runs are boundaries

  lemma BoundariesStay(s: State, e: Event)
    ensures forall x :: x in s.boundaries ==> x in Step(s, e).boundaries
    ensures e.RunStarted? ==> s.lastSeq + 1 in Step(s, e).boundaries
  {
  }

  lemma {:induction false} RunStartIsBoundary(log: seq<Event>, i: nat)
    requires i < |log| && log[i].RunStarted?
    ensures i + 1 in After(log).boundaries
    decreases |log|
  {
    var init := log[..|log| - 1];
    EveryLogIsNoted(init);
    BoundariesStay(After(init), log[|log| - 1]);
    assert After(log) == Step(After(init), log[|log| - 1]);
    hide After, Step, Increasing;
    if i < |init| { RunStartIsBoundary(init, i); }
  }

  /** The sequence at which the run of a complete reply finished. */
  function FinishOf(log: seq<Event>, item: nat): (finished: nat)
    requires Complete(After(log), item)
    ensures 1 <= finished <= |log|
  {
    EveryLogIsNoted(log);
    After(log).finishes[After(log).runs[item]]
  }
}
