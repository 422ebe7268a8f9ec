/**
  A session's model draft, published once it settles, and dropped when another
  client picks (`DraftPublish` in model_draft.rs, and the protocol its callers
  follow: each local pick starts a timer, which publishes the draft if its pick
  is still the latest; the draft itself can change without a pick).
 */
module ModelDrafts {
  import opened Results

  /** The generation is a `u64`, added to with wrap-around. */
  const WRAP: nat := 0x1_0000_0000_0000_0000

  function Next(generation: nat): (g: nat)
    ensures g < WRAP
  {
    (generation + 1) % WRAP
  }

  /** The generation that pick number `pick` carries. */
  function Carried(pick: nat): nat { pick % WRAP }

  lemma NextCounts(n: nat)
    ensures Next(n % WRAP) == (n + 1) % WRAP
  {
    if n % WRAP == WRAP - 1 {
      assert n + 1 == (n / WRAP + 1) * WRAP;
    } else {
      assert n + 1 == (n / WRAP) * WRAP + (n % WRAP + 1);
    }
  }

  lemma SameGeneration(later: nat, earlier: nat)
    requires earlier <= later
    ensures later % WRAP == earlier % WRAP <==> (later - earlier) % WRAP == 0
  {
    var q, r := later / WRAP, later % WRAP;
    var p, t := earlier / WRAP, earlier % WRAP;
    assert later - earlier == (q - p) * WRAP + (r - t);
    if r == t {
      MultipleOfWrap(q - p);
    } else if (later - earlier) % WRAP == 0 {
      var k := (later - earlier) / WRAP;
      assert (k - (q - p)) * WRAP == r - t;
      NoSmallMultiple(k - (q - p), r - t);
    }
  }

  lemma MultipleOfWrap(k: int)
    ensures (k * WRAP) % WRAP == 0
  {}

  lemma NoSmallMultiple(k: int, d: int)
    requires k * WRAP == d && 0 - WRAP < d < WRAP
    ensures d == 0
  {
    assert k == 0;
  }

  class DraftPublish {
    var generation: nat
    /** How many picks there were, local and foreign. */
    ghost var picks: nat

    ghost predicate Valid()
      reads this
    {
      generation == Carried(picks)
    }

    constructor ()
      ensures Valid() && picks == 0
    {
      generation, picks := 0, 0;
    }

    /** The draft changed: the generation its publish carries, the count of picks as far as a `u64` goes. */
    method Schedule() returns (g: nat)
      requires Valid()
      modifies this
      ensures Valid() && picks == old(picks) + 1 && g == Carried(picks)
    {
      NextCounts(picks);
      generation := if generation == WRAP - 1 then 0 else generation + 1;
      picks := picks + 1;
      g := generation;
    }

    /** Whether the publish of a pick that carries `g` may still go out: no pick came after. */
    method IsCurrent(g: nat) returns (current: bool)
      requires Valid()
      ensures forall pick :: 0 <= pick <= picks && Carried(pick) == g ==>
                && (current <==> (picks - pick) % WRAP == 0)
                && (picks - pick < WRAP ==> (current <==> pick == picks))
    {
      forall pick | 0 <= pick <= picks && Carried(pick) == g
        ensures g == generation <==> (picks - pick) % WRAP == 0
      {
        SameGeneration(picks, pick);
      }
      current := g == generation;
    }

    /** A pick of another client: what was still waiting here will not go out. */
    method YieldToForeignPick()
      requires Valid()
      modifies this
      ensures Valid() && picks == old(picks) + 1
    {
      NextCounts(picks);
      generation := if generation == WRAP - 1 then 0 else generation + 1;
      picks := picks + 1;
    }
  }

  // ------------------------------------------------------------ the protocol

  /**
    What a client sees: its own picks, other clients' picks, the draft replaced
    without a pick (by another catalogue, by the session's selection, or by none),
    and its timers going off, with the picked session still viewed or not.
   */
  datatype Event =
    | Pick(value: string)
    | ForeignPick
    | Replaced(draft: Option<string>)
    | Fire(pick: nat, viewed: bool)

  /** The timer of a local pick. */
  datatype Timer = Timer(generation: nat, fired: bool)

  /** The draft published when the timer of local pick number `pick` went off. */
  datatype Publication = Publication(pick: nat, value: string)

  datatype State = State(generation: nat, draft: Option<string>, timers: seq<Timer>, published: seq<Publication>)

  predicate Possible(s: State, e: Event) {
    e.Fire? ==> e.pick < |s.timers| && !s.timers[e.pick].fired
  }

  function Step(s: State, e: Event): State
    requires Possible(s, e)
  {
    match e
    case Pick(value) =>
      var g := Next(s.generation);
      State(g, Some(value), s.timers + [Timer(g, false)], s.published)
    case ForeignPick => s.(generation := Next(s.generation))
    case Replaced(draft) => s.(draft := draft)
    case Fire(pick, viewed) =>
      State(s.generation, s.draft, s.timers[pick := s.timers[pick].(fired := true)],
            if s.timers[pick].generation == s.generation && viewed && s.draft.Some?
            then s.published + [Publication(pick, s.draft.value)] else s.published)
  }

  ghost predicate IsRun(events: seq<Event>)
    decreases |events|, 0
  {
    events != [] ==>
      var before := events[..|events| - 1];
      IsRun(before) && Possible(Reached(before), events[|events| - 1])
  }

  ghost function Reached(events: seq<Event>): State
    requires IsRun(events)
    decreases |events|, 1
  {
    if events == [] then State(0, None, [], [])
    else Step(Reached(events[..|events| - 1]), events[|events| - 1])
  }

  /** How many picks, local and foreign, there were. */
  function Picks(events: seq<Event>): nat {
    if events == [] then 0
    else
      var e := events[|events| - 1];
      Picks(events[..|events| - 1]) + if e.Pick? || e.ForeignPick? then 1 else 0
  }

  /** For each local pick, its number among all picks, and its value. */
  function LocalPicks(events: seq<Event>): seq<(nat, string)> {
    if events == [] then []
    else
      var before := events[..|events| - 1];
      LocalPicks(before) +
      if events[|events| - 1].Pick? then [(Picks(before) + 1, events[|events| - 1].value)] else []
  }

  /** Local pick number `i` is the latest pick: none came after it, local or foreign. */
  predicate IsLatest(events: seq<Event>, i: nat) {
    i < |LocalPicks(events)| && LocalPicks(events)[i].0 == Picks(events)
  }

  /** What the draft was last replaced with since the last local pick, if it was. */
  function ReplacedSince(events: seq<Event>): Option<Option<string>> {
    if events == [] then None
    else match events[|events| - 1]
      case Pick(_) => None
      case Replaced(draft) => Some(draft)
      case _ => ReplacedSince(events[..|events| - 1])
  }

  /** What the pick `i` would go out as: its value, unless the draft was replaced since. */
  function Outgoing(events: seq<Event>, i: nat): Option<string>
    requires i < |LocalPicks(events)|
  {
    match ReplacedSince(events)
    case None => Some(LocalPicks(events)[i].1)
    case Some(draft) => draft
  }

  // ----------------------------------------------------- what every run keeps

  lemma {:induction false} PicksInOrder(events: seq<Event>)
    ensures forall i :: 0 <= i < |LocalPicks(events)| ==> 0 < LocalPicks(events)[i].0 <= Picks(events)
    ensures forall i, j :: 0 <= i < j < |LocalPicks(events)| ==> LocalPicks(events)[i].0 < LocalPicks(events)[j].0
    decreases |events|
  {
    if events != [] {
      PicksInOrder(events[..|events| - 1]);
    }
  }

  lemma LatestIsLast(events: seq<Event>, i: nat)
    requires IsLatest(events, i)
    ensures i == |LocalPicks(events)| - 1
  {
    PicksInOrder(events);
    var picks := LocalPicks(events);
    assert picks[|picks| - 1].0 <= picks[i].0;
  }

  /** The generation counts the picks, and each timer carries its own pick's count. */
  lemma {:induction false} GenerationsCount(events: seq<Event>)
    requires IsRun(events)
    ensures var s := Reached(events);
            && s.generation == Picks(events) % WRAP
            && |s.timers| == |LocalPicks(events)|
            && forall i :: 0 <= i < |s.timers| ==> s.timers[i].generation == LocalPicks(events)[i].0 % WRAP
    decreases |events|
  {
    if events != [] {
      var before := events[..|events| - 1];
      GenerationsCount(before);
      NextCounts(Picks(before));
    }
  }

  /** The draft is the last local pick's value, or what replaced it since. */
  lemma {:induction false} DraftIsOutgoing(events: seq<Event>)
    requires IsRun(events) && LocalPicks(events) != []
    ensures Reached(events).draft == Outgoing(events, |LocalPicks(events)| - 1)
    decreases |events|
  {
    var before, e := events[..|events| - 1], events[|events| - 1];
    if !e.Pick? && !e.Replaced? {
      DraftIsOutgoing(before);
    }
  }

  lemma {:induction false} EarlierPicksStay(events: seq<Event>, n: nat)
    requires n <= |events|
    ensures LocalPicks(events[..n]) <= LocalPicks(events) && Picks(events[..n]) <= Picks(events)
    ensures IsRun(events) ==> IsRun(events[..n])
    decreases |events|
  {
    if n == |events| {
      assert events[..n] == events;
    } else {
      var before := events[..|events| - 1];
      EarlierPicksStay(before, n);
      assert before[..n] == events[..n];
    }
  }

  // ------------------------------------------------------------ the theorems

  /**
    A timer publishes exactly when its pick is the latest one, counted modulo the
    width of the generation, its session is still viewed and there is a draft; and
    what it publishes is then the draft.
   */
  lemma TimerPublishes(events: seq<Event>, i: nat, viewed: bool)
    requires IsRun(events) && i < |LocalPicks(events)| && Possible(Reached(events), Fire(i, viewed))
    ensures var s := Reached(events);
            Step(s, Fire(i, viewed)).published ==
            if (Picks(events) - LocalPicks(events)[i].0) % WRAP == 0 && viewed && s.draft.Some?
            then s.published + [Publication(i, s.draft.value)] else s.published
  {
    GenerationsCount(events);
    PicksInOrder(events);
    SameGeneration(Picks(events), LocalPicks(events)[i].0);
  }

  /** The next publication is of the pick `i` with its own value. */
  ghost predicate PublishesOwn(events: seq<Event>, i: nat, viewed: bool)
    requires IsRun(events) && i < |LocalPicks(events)| && Possible(Reached(events), Fire(i, viewed))
  {
    Step(Reached(events), Fire(i, viewed)).published ==
    Reached(events).published + [Publication(i, LocalPicks(events)[i].1)]
  }

  /** The draft still is the pick's value: not replaced since, or replaced with the same. */
  predicate Undisturbed(events: seq<Event>, i: nat)
    requires i < |LocalPicks(events)|
  {
    ReplacedSince(events).None? || ReplacedSince(events) == Some(Some(LocalPicks(events)[i].1))
  }

  /**
    With fewer picks than generations, a timer publishes only while its pick is the
    latest, and publishes its pick's value exactly when in addition its session is
    viewed and the draft was not replaced with another since.
   */
  lemma OnlyTheLatestPickPublishes(events: seq<Event>, i: nat, viewed: bool)
    requires IsRun(events) && i < |LocalPicks(events)| && Possible(Reached(events), Fire(i, viewed))
    requires Picks(events) < WRAP
    ensures var s := Reached(events);
            Step(s, Fire(i, viewed)).published ==
            if IsLatest(events, i) && viewed && Outgoing(events, i).Some?
            then s.published + [Publication(i, Outgoing(events, i).value)] else s.published
    ensures PublishesOwn(events, i, viewed) <==> IsLatest(events, i) && viewed && Undisturbed(events, i)
  {
    TimerPublishes(events, i, viewed);
    PicksInOrder(events);
    if IsLatest(events, i) {
      LatestIsLast(events, i);
      DraftIsOutgoing(events);
    }
    var s := Reached(events);
    hide Reached, LocalPicks, Picks, ReplacedSince, Step, IsRun;
    assert |s.published + [Publication(i, LocalPicks(events)[i].1)]| == |s.published| + 1;
    if IsLatest(events, i) && viewed && Outgoing(events, i).Some? {
      var going := s.published + [Publication(i, Outgoing(events, i).value)];
      assert going[|s.published|] == Publication(i, Outgoing(events, i).value);
      assert (s.published + [Publication(i, LocalPicks(events)[i].1)])[|s.published|] ==
             Publication(i, LocalPicks(events)[i].1);
    }
  }

  /** Past that bound a stale pick can publish: exactly 2^64 picks later its timer is current again. */
  lemma StalePickPublishesAfterWrap(events: seq<Event>, i: nat)
    requires IsRun(events) && i < |LocalPicks(events)| && Possible(Reached(events), Fire(i, true))
    requires Picks(events) == LocalPicks(events)[i].0 + WRAP && Reached(events).draft.Some?
    ensures !IsLatest(events, i)
    ensures Step(Reached(events), Fire(i, true)).published ==
            Reached(events).published + [Publication(i, Reached(events).draft.value)]
  {
    TimerPublishes(events, i, true);
  }

  /** There is such a run: a pick, and then as many of other clients. */
  lemma PickThenWrap() returns (events: seq<Event>)
    ensures IsRun(events) && LocalPicks(events) == [(1, "old")] && Possible(Reached(events), Fire(0, true))
    ensures Picks(events) == 1 + WRAP && Reached(events).draft == Some("old")
  {
    events := PickThenForeignPicks(WRAP);
  }

  lemma {:induction false} PickThenForeignPicks(n: nat) returns (events: seq<Event>)
    ensures IsRun(events) && LocalPicks(events) == [(1, "old")] && Picks(events) == 1 + n
    ensures Reached(events).draft == Some("old") && |Reached(events).timers| == 1 && !Reached(events).timers[0].fired
  {
    if n == 0 {
      events := [Pick("old")];
      assert events[..0] == [];
    } else {
      var before := PickThenForeignPicks(n - 1);
      events := before + [ForeignPick];
      assert events[..|before|] == before;
    }
  }

  /** Every publication's timer has gone off, and no two are of the same pick. */
  ghost predicate PublishedOnce(s: State) {
    && (forall p :: p in s.published ==> p.pick < |s.timers| && s.timers[p.pick].fired)
    && (forall k, l :: 0 <= k < l < |s.published| ==> s.published[k].pick != s.published[l].pick)
  }

  lemma StepPublishesOnce(s: State, e: Event)
    requires Possible(s, e) && PublishedOnce(s)
    ensures PublishedOnce(Step(s, e))
  {
    var after := Step(s, e);
    forall k | 0 <= k < |s.published|
      ensures e.Fire? ==> s.published[k].pick != e.pick
    {
      assert s.published[k] in s.published;
    }
    forall p | p in after.published
      ensures p.pick < |after.timers| && after.timers[p.pick].fired
    {
      if p in s.published { assert s.timers[p.pick].fired; }
    }
  }

  /** Each pick publishes at most once. */
  lemma {:induction false} EachPickPublishesOnce(events: seq<Event>)
    requires IsRun(events)
    ensures PublishedOnce(Reached(events))
    decreases |events|
  {
    if events != [] {
      var before := events[..|events| - 1];
      EachPickPublishesOnce(before);
      StepPublishesOnce(Reached(before), events[|events| - 1]);
    }
  }

  /** `p` went out when event `n` happened: the latest pick's timer, with what the pick had become. */
  ghost predicate WentOut(events: seq<Event>, n: nat, p: Publication) {
    && n < |events| && events[n] == Fire(p.pick, true)
    && IsLatest(events[..n], p.pick) && Outgoing(events[..n], p.pick) == Some(p.value)
  }

  lemma WentOutBefore(events: seq<Event>, n: nat, p: Publication)
    requires n + 1 < |events|
    ensures WentOut(events, n, p) <==> WentOut(events[..|events| - 1], n, p)
  {
    assert events[..|events| - 1][..n] == events[..n];
  }

  /** What is published is exactly what went out when the timer of a latest pick fired. */
  lemma {:induction false} PublishedIsWhatWentOut(events: seq<Event>, p: Publication)
    requires IsRun(events) && Picks(events) < WRAP
    ensures p in Reached(events).published <==> exists n: nat :: WentOut(events, n, p)
    decreases |events|
  {
    if events != [] {
      var last := |events| - 1;
      var before, e := events[..last], events[last];
      PublishedIsWhatWentOut(before, p);
      PublishedStep(before, e, p);
      assert events[..last] == before;
      assert WentOut(events, last, p) <==>
             e == Fire(p.pick, true) && IsLatest(before, p.pick) && Outgoing(before, p.pick) == Some(p.value);
      hide Reached, IsRun, Picks, LocalPicks, IsLatest, Outgoing, ReplacedSince;
      forall n | 0 <= n < last
        ensures WentOut(events, n, p) <==> WentOut(before, n, p)
      {
        WentOutBefore(events, n, p);
      }
      assert forall n: nat :: WentOut(before, n, p) ==> n < last;
      assert forall n: nat :: WentOut(events, n, p) ==> n <= last;
    }
  }

  lemma PublishedStep(before: seq<Event>, e: Event, p: Publication)
    requires IsRun(before) && Possible(Reached(before), e) && Picks(before) < WRAP
    ensures p in Step(Reached(before), e).published <==>
            || p in Reached(before).published
            || (e == Fire(p.pick, true) && IsLatest(before, p.pick) && Outgoing(before, p.pick) == Some(p.value))
  {
    if e.Fire? {
      GenerationsCount(before);
      OnlyTheLatestPickPublishes(before, e.pick, e.viewed);
    }
  }

  /**
    Every publication is of a local pick; it has the pick's value exactly when the
    draft was not replaced with another between the pick and its timer.
   */
  lemma PublishesPicks(events: seq<Event>, p: Publication)
    requires IsRun(events) && Picks(events) < WRAP && p in Reached(events).published
    ensures p.pick < |LocalPicks(events)|
    ensures p.value == LocalPicks(events)[p.pick].1 <==>
            exists n: nat :: WentOut(events, n, p) && Undisturbed(events[..n], p.pick)
  {
    PublishedIsWhatWentOut(events, p);
    forall n: nat | WentOut(events, n, p)
      ensures p.pick < |LocalPicks(events)|
      ensures p.value == LocalPicks(events)[p.pick].1 <==> Undisturbed(events[..n], p.pick)
    {
      EarlierPicksStay(events, n);
    }
  }

  /** The timer of the latest pick, once fired, was the last to publish anything. */
  lemma {:induction false} NothingPublishedAfter(events: seq<Event>, i: nat) returns (n: nat)
    requires IsRun(events) && Picks(events) < WRAP && IsLatest(events, i)
    requires i < |Reached(events).timers| && Reached(events).timers[i].fired
    ensures n < |events| && events[n].Fire? && events[n].pick == i && IsLatest(events[..n], i)
    ensures IsRun(events[..n]) && Possible(Reached(events[..n]), events[n])
    ensures Reached(events).published == Step(Reached(events[..n]), events[n]).published
    decreases |events|
  {
    var before, e := events[..|events| - 1], events[|events| - 1];
    PicksInOrder(events);
    PicksInOrder(before);
    GenerationsCount(before);
    if e.Fire? && e.pick == i {
      n := |events| - 1;
    } else {
      if e.Fire? { OnlyTheLatestPickPublishes(before, e.pick, e.viewed); }
      n := NothingPublishedAfter(before, i);
      assert before[..n] == events[..n];
    }
  }

  /** The last publication is of the last local pick, and is the draft. */
  ghost predicate PublishedTheDraft(events: seq<Event>)
    requires IsRun(events)
  {
    var s := Reached(events);
    && s.published != []
    && var last := s.published[|s.published| - 1];
       last.pick == |LocalPicks(events)| - 1 && s.draft == Some(last.value)
  }

  /**
    Once every timer has gone off with no foreign pick after the last local one, the
    draft is published exactly when the last pick's session was viewed as its timer
    went off, event `n`, and the draft has not become another since; in particular
    when the draft was never replaced after the pick.
   */
  lemma SettledDraftIsPublished(events: seq<Event>) returns (n: nat)
    requires IsRun(events) && Picks(events) < WRAP && LocalPicks(events) != []
    requires IsLatest(events, |LocalPicks(events)| - 1)
    requires forall t :: t in Reached(events).timers ==> t.fired
    ensures var i := |LocalPicks(events)| - 1;
            && n < |events| && events[n].Fire? && events[n].pick == i && i < |LocalPicks(events[..n])|
            && (PublishedTheDraft(events) <==>
                && events[n].viewed && Outgoing(events[..n], i).Some?
                && Outgoing(events[..n], i) == Outgoing(events, i))
            && (events[n].viewed && ReplacedSince(events).None? ==>
                PublishedTheDraft(events) && Reached(events).draft == Some(LocalPicks(events)[i].1))
  {
    GenerationsCount(events);
    DraftIsOutgoing(events);
    var i := |LocalPicks(events)| - 1;
    assert Reached(events).timers[i] in Reached(events).timers;
    n := NothingPublishedAfter(events, i);
    var before := events[..n];
    EarlierPicksStay(events, n);
    OnlyTheLatestPickPublishes(before, i, events[n].viewed);
    EachPickPublishesOnce(before);
    LatestIsLast(before, i);
    ReplacedLater(events, n);
    var s, was := Reached(events), Reached(before);
    hide Reached, IsRun, LocalPicks, Picks, ReplacedSince, Step;
    if was.published != [] {
      assert was.published[|was.published| - 1] in was.published;
    }
  }

  /** A draft not replaced since the last pick was not replaced when that pick's timer fired. */
  lemma {:induction false} ReplacedLater(events: seq<Event>, n: nat)
    requires n <= |events| && |LocalPicks(events[..n])| == |LocalPicks(events)|
    ensures ReplacedSince(events).None? ==> ReplacedSince(events[..n]).None?
    decreases |events|
  {
    if n == |events| {
      assert events[..n] == events;
    } else {
      var before := events[..|events| - 1];
      assert before[..n] == events[..n];
      EarlierPicksStay(before, n);
      ReplacedLater(before, n);
    }
  }
}
