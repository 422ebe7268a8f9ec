/**
  The fold's notes and the reply's cut, said by the events of the log alone
  (`note_reply_boundary` and the blocks' runs in reduce.rs, cut_points.rs).
 */
module CutBoundaries {
  import opened Results
  import opened CutPoints

  // ------------------------------------------------------------ what starts where

  /** Event `i` starts `run`, and no run starts or finishes after it. */
  ghost predicate LastStarts(log: seq<Event>, i: nat, run: RunId) {
    && i < |log| && log[i] == RunStarted(Some(run))
    && forall j :: i < j < |log| ==> !log[j].RunStarted? && !log[j].RunFinished?
  }

  /** A run is open at the end of `log`. */
  ghost predicate RunOpen(log: seq<Event>) {
    exists i: nat, run: RunId :: LastStarts(log, i, run)
  }

  /** The event with sequence `q` starts something at `x` that the reply before does not hold. */
  ghost predicate StartsAt(log: seq<Event>, q: nat, x: nat) {
    1 <= q <= |log| &&
    match log[q - 1]
    case RunStarted(_) => x == q
    case Arrived => x == q && !RunOpen(log[..q - 1])
    case Compacted(through) => !RunOpen(log[..q - 1]) && x == (if through + 1 <= q then through + 1 else q)
    case _ => false
  }

  lemma {:induction false} ActiveRunIsOpen(log: seq<Event>)
    ensures forall run: RunId :: After(log).activeRun == Some(run) <==> exists i: nat :: LastStarts(log, i, run)
    ensures After(log).activeRun.Some? <==> RunOpen(log)
  {
    if log != [] {
      var init, e := log[..|log| - 1], log[|log| - 1];
      ActiveRunIsOpen(init);
      StepActivates(After(init), e);
      hide Step;
      forall run: RunId
        ensures After(log).activeRun == Some(run) <==> exists i: nat :: LastStarts(log, i, run)
      {
        LastStartsOneMore(log, run);
      }
    }
    assert After(log).activeRun.Some? ==> exists run: RunId :: After(log).activeRun == Some(run);
  }

  lemma StepActivates(s: State, e: Event)
    ensures Step(s, e).activeRun ==
            if e.RunStarted? then e.run else if e.RunFinished? then None else s.activeRun
  {
  }

  lemma LastStartsOneMore(log: seq<Event>, run: RunId)
    requires log != []
    ensures var init, e := log[..|log| - 1], log[|log| - 1];
            (exists i: nat :: LastStarts(log, i, run)) <==>
            if e.RunStarted? then e.run == Some(run)
            else !e.RunFinished? && exists i: nat :: LastStarts(init, i, run)
  {
    var init, e := log[..|log| - 1], log[|log| - 1];
    assert log == init + [e];
    if i: nat :| LastStarts(log, i, run) {
      assert i < |init| ==> LastStarts(init, i, run);
    }
    if e == RunStarted(Some(run)) {
      assert LastStarts(log, |init|, run);
    }
    if !e.RunStarted? && !e.RunFinished? {
      if i: nat :| LastStarts(init, i, run) {
        assert LastStarts(log, i, run);
      }
    }
  }

  /** The boundaries are exactly where some event of the log starts something. */
  lemma {:induction false} BoundariesAre(log: seq<Event>, x: nat)
    ensures x in After(log).boundaries <==> exists q: nat :: StartsAt(log, q, x)
  {
    if log != [] {
      var init := log[..|log| - 1];
      BoundariesAre(init, x);
      LastStep(log);
      StepAddsStart(After(init), log[|log| - 1]);
      StartsHere(log, x);
      StartsOneMore(log, x);
      hide After, Step, Boundary, StartsAt;
    }
  }

  lemma StartsHere(log: seq<Event>, x: nat)
    requires log != []
    ensures Boundary(After(log[..|log| - 1]), |log|, log[|log| - 1]) == Some(x) <==> StartsAt(log, |log|, x)
  {
    ActiveRunIsOpen(log[..|log| - 1]);
    hide After, RunOpen;
  }

  lemma StartsOneMore(log: seq<Event>, x: nat)
    requires log != []
    ensures var init := log[..|log| - 1];
            (exists q: nat :: StartsAt(log, q, x)) <==>
            StartsAt(log, |log|, x) || exists q: nat :: StartsAt(init, q, x)
  {
    var init := log[..|log| - 1];
    hide RunOpen;
    forall q: nat | q < |log|
      ensures StartsAt(log, q, x) <==> StartsAt(init, q, x)
    {
      if q >= 1 { assert log[..q - 1] == init[..q - 1]; }
    }
    assert forall q: nat :: StartsAt(log, q, x) ==> q <= |log|;
    assert forall q: nat :: StartsAt(init, q, x) ==> q < |log|;
    hide StartsAt;
  }

  // ------------------------------------------------------- blocks and finishes

  /** Event `i` shows the block `item` for `run`, and no later event shows it for any run. */
  ghost predicate LastShows(log: seq<Event>, i: nat, item: nat, run: RunId) {
    && i < |log| && log[i] == BlockShown(item, Some(run))
    && forall j :: i < j < |log| && log[j].BlockShown? && log[j].run.Some? ==> log[j].item != item
  }

  /** Event `i` shows the block `item` for `run`, and no later event shows one for it. */
  ghost predicate ShowsLast(log: seq<Event>, i: nat, item: nat, run: RunId) {
    && i < |log| && log[i] == BlockShown(item, Some(run))
    && forall j :: i < j < |log| && log[j].BlockShown? ==> log[j].run != Some(run)
  }

  /** `run` finished at sequence `q`, for the last time. */
  ghost predicate FinishesLast(log: seq<Event>, q: nat, run: RunId) {
    && 1 <= q <= |log| && log[q - 1] == RunFinished(Some(run))
    && forall j :: q <= j < |log| ==> log[j] != RunFinished(Some(run))
  }

  lemma {:induction false} RunsAre(log: seq<Event>, item: nat, run: RunId)
    ensures item in After(log).runs && After(log).runs[item] == run <==> exists i: nat :: LastShows(log, i, item, run)
  {
    if log != [] {
      var init, e := log[..|log| - 1], log[|log| - 1];
      RunsAre(init, item, run);
      StepShows(After(init), e);
      LastShowsOneMore(log, item, run);
      hide Step, LastShows;
    }
  }

  lemma StepShows(s: State, e: Event)
    ensures Step(s, e).runs == if e.BlockShown? && e.run.Some? then s.runs[e.item := e.run.value] else s.runs
    ensures Step(s, e).lastBlocks ==
            if e.BlockShown? && e.run.Some? then s.lastBlocks[e.run.value := e.item] else s.lastBlocks
  {
  }

  lemma LastShowsOneMore(log: seq<Event>, item: nat, run: RunId)
    requires log != []
    ensures var init, e := log[..|log| - 1], log[|log| - 1];
            (exists i: nat :: LastShows(log, i, item, run)) <==>
            if e.BlockShown? && e.run.Some? && e.item == item then e.run == Some(run)
            else exists i: nat :: LastShows(init, i, item, run)
  {
    var init, e := log[..|log| - 1], log[|log| - 1];
    assert log == init + [e];
    if e.BlockShown? && e.run.Some? && e.item == item {
      assert e.run == Some(run) ==> LastShows(log, |init|, item, run);
    } else {
      assert forall i: nat :: LastShows(log, i, item, run) <==> LastShows(init, i, item, run);
    }
  }

  lemma {:induction false} LastBlocksAre(log: seq<Event>, item: nat, run: RunId)
    ensures run in After(log).lastBlocks && After(log).lastBlocks[run] == item <==>
            exists i: nat :: ShowsLast(log, i, item, run)
  {
    if log != [] {
      var init, e := log[..|log| - 1], log[|log| - 1];
      LastBlocksAre(init, item, run);
      StepShows(After(init), e);
      ShowsLastOneMore(log, item, run);
      hide Step, ShowsLast;
    }
  }

  lemma ShowsLastOneMore(log: seq<Event>, item: nat, run: RunId)
    requires log != []
    ensures var init, e := log[..|log| - 1], log[|log| - 1];
            (exists i: nat :: ShowsLast(log, i, item, run)) <==>
            if e.BlockShown? && e.run == Some(run) then e.item == item
            else exists i: nat :: ShowsLast(init, i, item, run)
  {
    var init, e := log[..|log| - 1], log[|log| - 1];
    assert log == init + [e];
    if e.BlockShown? && e.run == Some(run) {
      assert e.item == item ==> ShowsLast(log, |init|, item, run);
    } else {
      assert forall i: nat :: ShowsLast(log, i, item, run) <==> ShowsLast(init, i, item, run);
    }
  }

  lemma {:induction false} FinishesAre(log: seq<Event>, q: nat, run: RunId)
    ensures run in After(log).finishes && After(log).finishes[run] == q <==> FinishesLast(log, q, run)
  {
    if log != [] {
      var init, e := log[..|log| - 1], log[|log| - 1];
      FinishesAre(init, q, run);
      LastStep(log);
      StepNotesFinishes(After(init), e);
      FinishesOneMore(log, q, run);
      hide After, Step, FinishesLast;
    }
  }

  lemma FinishesOneMore(log: seq<Event>, q: nat, run: RunId)
    requires log != []
    ensures FinishesLast(log, q, run) <==>
            if log[|log| - 1] == RunFinished(Some(run)) then q == |log| else FinishesLast(log[..|log| - 1], q, run)
  {
    assert log == log[..|log| - 1] + [log[|log| - 1]];
  }

  // ------------------------------------------------------------------ the cut

  /** `item` ends a reply of `run` that finished at `finished`: the run's last block, shown by it last. */
  ghost predicate Reply(log: seq<Event>, item: nat, run: RunId, finished: nat) {
    && (exists i: nat :: LastShows(log, i, item, run))
    && (exists i: nat :: ShowsLast(log, i, item, run))
    && FinishesLast(log, finished, run)
  }

  lemma RepliesAre(log: seq<Event>, item: nat, run: RunId, finished: nat)
    ensures Replied(After(log), item, run, finished) <==> Reply(log, item, run, finished)
  {
    RunsAre(log, item, run);
    LastBlocksAre(log, item, run);
    FinishesAre(log, finished, run);
    hide After, LastShows, ShowsLast, FinishesLast;
  }

  /** Keeping the log through `c` keeps the reply's finish, and nothing that starts after it. */
  ghost predicate Keeps(log: seq<Event>, finished: nat, c: int) {
    && finished <= c <= |log|
    && forall q: nat, x: nat :: StartsAt(log, q, x) ==> !(finished < x <= c)
  }

  lemma KeepsIs(log: seq<Event>, finished: nat, c: int)
    ensures Keeps(log, finished, c) <==> KeepsOnly(After(log), finished, c)
  {
    EveryLogIsNoted(log);
    hide After, StartsAt, Increasing;
    forall x: nat
      ensures x in After(log).boundaries <==> exists q: nat :: StartsAt(log, q, x)
    {
      BoundariesAre(log, x);
    }
    if KeepsOnly(After(log), finished, c) {
      forall q: nat, x: nat | StartsAt(log, q, x)
        ensures !(finished < x <= c)
      {
        assert x in After(log).boundaries;
      }
    }
  }

  /**
    The cut, from the log's events alone: there is one exactly for a block that ends
    a finished reply, and it is the last sequence to which the log can be kept without
    anything that starts after the reply.
   */
  lemma CutIsLastKept(log: seq<Event>, item: nat)
    ensures Increasing(After(log).boundaries)
    ensures ReplyCut(After(log), item).Some? <==> exists run: RunId, finished: nat :: Reply(log, item, run, finished)
    ensures forall run: RunId, finished: nat :: Reply(log, item, run, finished) ==>
              var c := ReplyCut(After(log), item).value;
              Keeps(log, finished, c) && forall other: int :: Keeps(log, finished, other) ==> other <= c
  {
    CutIsGreatest(log, item);
    hide After, Reply, Keeps, KeepsOnly, ReplyCut;
    forall run: RunId, finished: nat
      ensures Replied(After(log), item, run, finished) <==> Reply(log, item, run, finished)
    {
      RepliesAre(log, item, run, finished);
    }
    if Complete(After(log), item) {
      var run := After(log).runs[item];
      assert Replied(After(log), item, run, After(log).finishes[run]);
    }
    forall finished: nat, c: int
      ensures Keeps(log, finished, c) <==> KeepsOnly(After(log), finished, c)
    {
      KeepsIs(log, finished, c);
    }
  }

  /** `e` starts something as it comes; only a run does while another is open. */
  predicate StartsNow(e: Event, open: bool) {
    e.RunStarted? || (e.Arrived? && !open)
  }

  /** `e` compacts outside any run, having read past `finished`. */
  predicate CompactsPast(e: Event, open: bool, finished: nat) {
    e.Compacted? && !open && finished <= e.inputThrough
  }

  predicate ShowsBelow(e: Event, item: nat, run: RunId) {
    e.BlockShown? && e.run == Some(run) && e.item != item
  }

  lemma CutGoes(s: State, item: nat, e: Event, run: RunId, finished: nat, c: nat)
    requires Increasing(s.boundaries) && Replied(s, item, run, finished) && ReplyCut(s, item) == Some(c)
    requires finished <= c <= s.lastSeq
    ensures var next, n, open := CutAfter(s, item, e), s.lastSeq + 1, s.activeRun.Some?;
            && (ShowsBelow(e, item, run) ==> next == None)
            && (e == RunFinished(Some(run)) ==> next == Some(n))
            && (StartsNow(e, open) ==> next == Some(c))
            && (CompactsPast(e, open, finished) ==> next == Some(if e.inputThrough < c then e.inputThrough else c))
            && (ShowsBelow(e, item, run) || e == RunFinished(Some(run)) || StartsNow(e, open)
                || CompactsPast(e, open, finished) || next == Some(if c == n - 1 then n else c))
  {
    hide ReplyCut, Increasing;
  }

  /**
    Where the cut `c` of a reply goes with one more event: another block of the run
    takes it away, another finish moves it there, a start or an arrival outside any
    run fixes it, a compaction outside any run moves it back to what it read, if that
    is not before the finish, and anything else moves it along while it is at the
    log's end.
   */
  lemma CutAfterEvent(log: seq<Event>, item: nat, e: Event, run: RunId, finished: nat)
    requires Reply(log, item, run, finished)
    requires e.BlockShown? && e.item == item && e.run.Some? ==> e.run == Some(run)
    ensures Increasing(After(log).boundaries) && Increasing(After(log + [e]).boundaries)
    ensures ReplyCut(After(log), item).Some? && finished <= ReplyCut(After(log), item).value <= |log|
    ensures var c, next, open := ReplyCut(After(log), item).value, ReplyCut(After(log + [e]), item), RunOpen(log);
            && (ShowsBelow(e, item, run) ==> next == None)
            && (e == RunFinished(Some(run)) ==> next == Some(|log| + 1))
            && (StartsNow(e, open) ==> next == Some(c))
            && (CompactsPast(e, open, finished) ==> next == Some(if e.inputThrough < c then e.inputThrough else c))
            && (ShowsBelow(e, item, run) || e == RunFinished(Some(run)) || StartsNow(e, open)
                || CompactsPast(e, open, finished) || next == Some(if c == |log| then |log| + 1 else c))
  {
    RepliesAre(log, item, run, finished);
    ActiveRunIsOpen(log);
    EveryLogIsNoted(log);
    CutKeepsOnly(After(log), log, item);
    CutMovedByEvent(log, item, e);
    assert After(log).lastSeq == |log|;
    hide After, ReplyCut, RunOpen, Reply, Increasing, CutAfter, StartsNow, CompactsPast, ShowsBelow;
    CutGoes(After(log), item, e, run, finished, ReplyCut(After(log), item).value);
  }
}
