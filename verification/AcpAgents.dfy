/**
  ACP agents in the clients (acp.rs): where an agent runs, and the choices a
  draft makes for its options.
 */
module AcpAgents {
  import opened Results

  datatype ConfigOption = ConfigOption(id: string, values: seq<string>, current: string)

  datatype OptionChoice = OptionChoice(option: string, value: string)

  /** A runtime that offers an agent. */
  datatype Offer = Offer(runtime: string, available: bool, options: seq<ConfigOption>)

  datatype Agent = Agent(runtime: Option<Offer>, runtimes: seq<Offer>, runnableAsRoot: bool)

  // --------------------------------------------------------------- placement

  datatype Placement = Runs(runtime: string) | Unavailable(runtime: string) | NeedsOneOf(runtimes: seq<string>)

  /** The runtimes that offer `agent`: `runtimes`, else the one an older daemon sends. */
  function Offering(agent: Agent): seq<Offer> {
    if agent.runtimes == [] then (match agent.runtime case Some(o) => [o] case None => []) else agent.runtimes
  }

  function FindOffer(offers: seq<Offer>, runtime: string): (r: Option<Offer>)
    ensures r.Some? ==> r.value in offers && r.value.runtime == runtime
    ensures r.None? ==> forall o :: o in offers ==> o.runtime != runtime
  {
    if offers == [] then None
    else if offers[0].runtime == runtime then Some(offers[0])
    else FindOffer(offers[1..], runtime)
  }

  function FirstAvailable(offers: seq<Offer>): (r: Option<Offer>)
    ensures r.Some? ==> r.value in offers && r.value.available
    ensures r.None? ==> forall o :: o in offers ==> !o.available
  {
    if offers == [] then None
    else if offers[0].available then Some(offers[0])
    else FirstAvailable(offers[1..])
  }

  /** The offers of the attached runtimes, in attach order. */
  function Here(offers: seq<Offer>, attached: seq<string>): (r: seq<Offer>)
    ensures forall o :: o in r ==> o in offers
  {
    if attached == [] then []
    else match FindOffer(offers, attached[0])
      case Some(o) => [o] + Here(offers, attached[1..])
      case None => Here(offers, attached[1..])
  }

  function On(o: Offer): Placement { if o.available then Runs(o.runtime) else Unavailable(o.runtime) }

  /** Where `agent` runs for those attached runtimes and that host; nowhere in particular without offers. */
  function Place(agent: Agent, attached: seq<string>, host: Option<string>): Option<Placement> {
    var offers := Offering(agent);
    if offers == [] then None
    else match host
      case Some(h) =>
        (match FindOffer(offers, h)
         case Some(o) => Some(On(o))
         case None => Some(Unavailable(h)))
      case None =>
        var here := Here(offers, attached);
        match FirstAvailable(here)
        case Some(o) => Some(On(o))
        case None =>
          if here != [] then Some(On(here[0]))
          else Some(NeedsOneOf(seq(|offers|, i requires 0 <= i < |offers| => offers[i].runtime)))
  }

  predicate CanRunOn(offers: seq<Offer>, runtime: string) {
    exists i :: 0 <= i < |offers| && offers[i].runtime == runtime && offers[i].available
  }

  function FirstThatRuns(offers: seq<Offer>, attached: seq<string>): (r: Option<string>)
    ensures r.Some? ==> CanRunOn(offers, r.value)
  {
    if attached == [] then None
    else if CanRunOn(offers, attached[0]) then Some(attached[0])
    else FirstThatRuns(offers, attached[1..])
  }

  /** The first attached runtime that can run `agent`, or else the first that can at all. */
  function DefaultRuntime(agent: Agent, attached: seq<string>): Option<string> {
    match FirstThatRuns(Offering(agent), attached)
    case Some(r) => Some(r)
    case None =>
      match FirstAvailable(Offering(agent))
      case Some(o) => Some(o.runtime)
      case None => None
  }

  predicate Pickable(agent: Agent, attached: seq<string>, host: Option<string>) {
    agent.runnableAsRoot &&
    match Place(agent, attached, host)
    case None => true
    case Some(Runs(_)) => true
    case Some(NeedsOneOf(_)) => DefaultRuntime(agent, attached).Some?
    case Some(Unavailable(_)) => false
  }

  /** The runtime an agent is placed on, whatever its availability. */
  function PlacedRuntime(agent: Agent, attached: seq<string>, host: Option<string>): Option<Offer> {
    var runtime :=
      match Place(agent, attached, host)
      case None => None
      case Some(Runs(r)) => Some(r)
      case Some(Unavailable(r)) => Some(r)
      case Some(NeedsOneOf(_)) => DefaultRuntime(agent, attached);
    match runtime
    case None => None
    case Some(r) => FindOffer(Offering(agent), r)
  }

  ghost predicate DistinctRuntimes(offers: seq<Offer>) {
    forall i, j :: 0 <= i < j < |offers| ==> offers[i].runtime != offers[j].runtime
  }

  /** With distinct runtimes, an offer is the one its runtime finds. */
  lemma {:induction false} FindsOffer(offers: seq<Offer>, o: Offer)
    requires DistinctRuntimes(offers) && o in offers
    ensures FindOffer(offers, o.runtime) == Some(o)
  {
    if offers[0] != o {
      var i :| 0 <= i < |offers| && offers[i] == o;
      assert offers[0].runtime != offers[i].runtime;
      FindsOffer(offers[1..], o);
    }
  }

  lemma RunsWhereFound(offers: seq<Offer>, runtime: string)
    requires DistinctRuntimes(offers)
    ensures CanRunOn(offers, runtime) <==>
              FindOffer(offers, runtime).Some? && FindOffer(offers, runtime).value.available
  {
    if CanRunOn(offers, runtime) {
      var i :| 0 <= i < |offers| && offers[i].runtime == runtime && offers[i].available;
      FindsOffer(offers, offers[i]);
    }
  }

  /** The first offer that can run the agent is the one its runtime finds, or another that can. */
  ghost predicate DefaultFindsItself(offers: seq<Offer>) {
    var o := FirstAvailable(offers);
    o.Some? ==> FindOffer(offers, o.value.runtime).value.available
  }

  /** `agent` is pickable exactly when the runtime it is placed on can run it. */
  ghost predicate PickedCanRun(agent: Agent, attached: seq<string>, host: Option<string>) {
    var placed := PlacedRuntime(agent, attached, host);
    Pickable(agent, attached, host) <==> agent.runnableAsRoot && placed.Some? && placed.value.available
  }

  lemma {:induction false} HereFinds(offers: seq<Offer>, attached: seq<string>)
    ensures forall o :: o in Here(offers, attached) ==> FindOffer(offers, o.runtime) == Some(o)
    ensures Here(offers, attached) == [] ==> FirstThatRuns(offers, attached).None?
  {
    if attached != [] { HereFinds(offers, attached[1..]); }
  }

  lemma DefaultCanRun(agent: Agent, attached: seq<string>, host: Option<string>)
    requires Offering(agent) != [] && DefaultFindsItself(Offering(agent))
    ensures PickedCanRun(agent, attached, host)
    ensures Pickable(agent, attached, host) ==>
              var placed := PlacedRuntime(agent, attached, host);
              placed.Some? && placed.value.available && FindOffer(Offering(agent), placed.value.runtime) == placed
  {
    HereFinds(Offering(agent), attached);
  }

  /**
    Wherever the runtimes are attached and whatever the host, an ACP agent is
    pickable exactly when the runtime it is placed on can run it, if and only if
    its first offer that can run it is not hidden by another of the same runtime.
   */
  lemma PickedCanRunIff(agent: Agent)
    requires Offering(agent) != [] && agent.runnableAsRoot
    ensures (forall attached, host :: PickedCanRun(agent, attached, host)) <==> DefaultFindsItself(Offering(agent))
  {
    if DefaultFindsItself(Offering(agent)) {
      forall attached, host
        ensures PickedCanRun(agent, attached, host)
      {
        DefaultCanRun(agent, attached, host);
      }
    } else {
      assert Here(Offering(agent), []) == [];
      assert !PickedCanRun(agent, [], None);
    }
  }

  lemma DistinctFindThemselves(offers: seq<Offer>)
    requires DistinctRuntimes(offers)
    ensures DefaultFindsItself(offers)
  {
    var o := FirstAvailable(offers);
    if o.Some? { FindsOffer(offers, o.value); }
  }

  /** The smallest such agent: its one runtime offers it twice, and the offer found first cannot run it. */
  lemma TwoOffersOfOneRuntime(on: Offer, off: Offer, agent: Agent)
    requires on.runtime == off.runtime && on.available && !off.available
    requires agent == Agent(None, [off, on], true)
    ensures Pickable(agent, [], None) && PlacedRuntime(agent, [], None) == Some(off)
  {}

  /** The default runtime's offer is available. */
  lemma DefaultIsAvailable(agent: Agent, attached: seq<string>)
    requires DistinctRuntimes(Offering(agent)) && DefaultRuntime(agent, attached).Some?
    ensures var o := FindOffer(Offering(agent), DefaultRuntime(agent, attached).value); o.Some? && o.value.available
  {
    var offers := Offering(agent);
    RunsWhereFound(offers, DefaultRuntime(agent, attached).value);
    if FirstThatRuns(offers, attached).None? {
      FindsOffer(offers, FirstAvailable(offers).value);
    }
  }

  /**
    An ACP agent that can run as a root is pickable exactly when the runtime it
    is placed on can run it; choosing that runtime as the host then keeps it there.
   */
  lemma PickableIffPlacedCanRun(agent: Agent, attached: seq<string>, host: Option<string>)
    requires Offering(agent) != [] && DistinctRuntimes(Offering(agent))
    ensures var placed := PlacedRuntime(agent, attached, host);
            && (Pickable(agent, attached, host) <==> agent.runnableAsRoot && placed.Some? && placed.value.available)
            && (Pickable(agent, attached, host) ==>
                  placed.value in Offering(agent)
                  && Place(agent, attached, Some(placed.value.runtime)) == Some(Runs(placed.value.runtime))
                  && PlacedRuntime(agent, attached, Some(placed.value.runtime)) == placed)
  {
    DistinctFindThemselves(Offering(agent));
    DefaultCanRun(agent, attached, host);
  }

  /** A runtime with an offer that can run the agent behind one that cannot. */
  ghost predicate Hidden(offers: seq<Offer>, runtime: string) {
    CanRunOn(offers, runtime) && !FindOffer(offers, runtime).value.available
  }

  /** Without a host, where `agent` runs is where it runs by default. */
  ghost predicate RunsByDefault(agent: Agent, attached: seq<string>) {
    var place := Place(agent, attached, None);
    place.Some? && place.value.Runs? ==> DefaultRuntime(agent, attached) == Some(place.value.runtime)
  }

  lemma {:induction false} HereFirst(offers: seq<Offer>, attached: seq<string>)
    requires forall r :: !Hidden(offers, r)
    ensures FirstAvailable(Here(offers, attached)).Some? <==> FirstThatRuns(offers, attached).Some?
    ensures FirstAvailable(Here(offers, attached)).Some? ==>
              FirstThatRuns(offers, attached).value == FirstAvailable(Here(offers, attached)).value.runtime
  {
    if attached != [] {
      HereFirst(offers, attached[1..]);
      assert !Hidden(offers, attached[0]);
      var o := FindOffer(offers, attached[0]);
      if o.Some? {
        assert Here(offers, attached)[1..] == Here(offers, attached[1..]);
        assert o.value.available ==> CanRunOn(offers, attached[0]);
      }
    }
  }

  /**
    Placement and default agree for every attach list if and only if no runtime
    hides an offer that can run the agent, or no runtime finds one that can.
   */
  lemma RunsByDefaultIff(agent: Agent)
    ensures (forall attached :: RunsByDefault(agent, attached)) <==>
            var offers := Offering(agent);
            (forall r :: !Hidden(offers, r))
                || (forall r :: FindOffer(offers, r).Some? ==> !FindOffer(offers, r).value.available)
  {
    var offers := Offering(agent);
    if forall r :: !Hidden(offers, r) {
      forall attached
        ensures RunsByDefault(agent, attached)
      {
        HereFirst(offers, attached);
      }
    } else if forall r :: FindOffer(offers, r).Some? ==> !FindOffer(offers, r).value.available {
      forall attached
        ensures RunsByDefault(agent, attached)
      {
        HereFinds(offers, attached);
      }
    } else {
      var hidden :| Hidden(offers, hidden);
      var open :| FindOffer(offers, open).Some? && FindOffer(offers, open).value.available;
      HiddenIsSkipped(agent, hidden, open);
    }
  }

  lemma HiddenIsSkipped(agent: Agent, hidden: string, open: string)
    requires Hidden(Offering(agent), hidden)
    requires FindOffer(Offering(agent), open).Some? && FindOffer(Offering(agent), open).value.available
    ensures !RunsByDefault(agent, [hidden, open])
  {
    var offers := Offering(agent);
    assert [hidden, open][1..] == [open] && [open][1..] == [];
    assert Here(offers, [open]) == [FindOffer(offers, open).value];
    assert FindOffer(offers, hidden).Some?;
    assert Here(offers, [hidden, open]) == [FindOffer(offers, hidden).value, FindOffer(offers, open).value];
    assert [FindOffer(offers, hidden).value, FindOffer(offers, open).value][1..] == [FindOffer(offers, open).value];
  }

  /** Without a host, where an agent runs is where it runs by default. */
  lemma PlacementIsDefault(agent: Agent, attached: seq<string>, runtime: string)
    requires DistinctRuntimes(Offering(agent)) && Place(agent, attached, None) == Some(Runs(runtime))
    ensures DefaultRuntime(agent, attached) == Some(runtime)
  {
    forall r
      ensures !Hidden(Offering(agent), r)
    {
      RunsWhereFound(Offering(agent), r);
    }
    HereFirst(Offering(agent), attached);
  }

  // ------------------------------------------------- where it runs, from the offers

  /** The offers of `agent`: its runtimes', or else the one an older daemon sends. */
  predicate OffersOf(agent: Agent, offers: seq<Offer>) {
    if agent.runtimes != [] then offers == agent.runtimes
    else if agent.runtime.Some? then offers == [agent.runtime.value] else offers == []
  }

  /** The offer of `runtime` is the first there is; `on` tells whether it can run the agent. */
  ghost predicate OfferedFirst(offers: seq<Offer>, runtime: string, on: bool) {
    exists i :: 0 <= i < |offers| && offers[i].runtime == runtime && offers[i].available == on
                && forall j :: 0 <= j < i ==> offers[j].runtime != runtime
  }

  lemma {:induction false} FoundFirst(offers: seq<Offer>, runtime: string)
    ensures var o := FindOffer(offers, runtime);
            && (o.None? <==> !OfferedFirst(offers, runtime, true) && !OfferedFirst(offers, runtime, false))
            && forall on :: OfferedFirst(offers, runtime, on) <==> o.Some? && o.value.available == on
  {
    if offers != [] {
      var rest := offers[1..];
      FoundFirst(rest, runtime);
      if offers[0].runtime == runtime {
        assert OfferedFirst(offers, runtime, offers[0].available);
      } else {
        OfferedLater(offers, runtime, true);
        OfferedLater(offers, runtime, false);
      }
    }
  }

  lemma OfferedLater(offers: seq<Offer>, runtime: string, on: bool)
    requires offers != [] && offers[0].runtime != runtime
    ensures OfferedFirst(offers, runtime, on) <==> OfferedFirst(offers[1..], runtime, on)
  {
    var rest := offers[1..];
    assert forall i :: 0 < i < |offers| ==> offers[i] == rest[i - 1];
    if OfferedFirst(rest, runtime, on) {
      var i :| 0 <= i < |rest| && rest[i].runtime == runtime && rest[i].available == on
        && forall j :: 0 <= j < i ==> rest[j].runtime != runtime;
      assert offers[i + 1].runtime == runtime;
    }
    if OfferedFirst(offers, runtime, on) {
      var i :| 0 <= i < |offers| && offers[i].runtime == runtime && offers[i].available == on
        && forall j :: 0 <= j < i ==> offers[j].runtime != runtime;
      assert rest[i - 1].runtime == runtime;
    }
  }

  /** Where an agent with a host runs: on it, if its offer can run it. */
  lemma HostedPlace(agent: Agent, offers: seq<Offer>, attached: seq<string>, host: string)
    requires OffersOf(agent, offers) && offers != []
    ensures Place(agent, attached, Some(host)) ==
            Some(if OfferedFirst(offers, host, true) then Runs(host) else Unavailable(host))
  {
    FoundFirst(offers, host);
  }

  predicate Offered(offers: seq<Offer>, runtime: string) {
    exists i :: 0 <= i < |offers| && offers[i].runtime == runtime
  }

  /** Of the attached runtimes, `attached[k]` is the first that offers the agent, */
  ghost predicate FirstHere(offers: seq<Offer>, attached: seq<string>, k: nat) {
    k < |attached| && Offered(offers, attached[k]) && forall j :: 0 <= j < k ==> !Offered(offers, attached[j])
  }

  /** or the first whose offer can run it. */
  ghost predicate FirstOn(offers: seq<Offer>, attached: seq<string>, k: nat) {
    && k < |attached| && OfferedFirst(offers, attached[k], true)
    && forall j :: 0 <= j < k ==> !OfferedFirst(offers, attached[j], true)
  }

  lemma {:induction false} HereIs(offers: seq<Offer>, attached: seq<string>)
    requires forall r :: Offered(offers, r) <==> FindOffer(offers, r).Some?
    requires forall r :: OfferedFirst(offers, r, true) <==>
              FindOffer(offers, r).Some? && FindOffer(offers, r).value.available
    ensures var here := Here(offers, attached);
            && (forall k: nat :: FirstHere(offers, attached, k) ==> here != [] && here[0].runtime == attached[k])
            && (forall k: nat :: FirstOn(offers, attached, k) ==>
                  FirstAvailable(here).Some? && FirstAvailable(here).value.runtime == attached[k])
            && ((forall k :: 0 <= k < |attached| ==> !Offered(offers, attached[k])) ==> here == [])
            && ((forall k :: 0 <= k < |attached| ==> !OfferedFirst(offers, attached[k], true)) ==>
                  FirstAvailable(here).None?)
  {
    if attached != [] {
      var rest := attached[1..];
      HereIs(offers, rest);
      hide Offered, OfferedFirst;
      assert forall j :: 0 < j < |attached| ==> attached[j] == rest[j - 1];
      assert FindOffer(offers, attached[0]).Some? ==> Here(offers, attached)[1..] == Here(offers, rest);
      forall k: nat
        ensures k > 0 && FirstHere(offers, attached, k) ==> FirstHere(offers, rest, k - 1)
        ensures k > 0 && FirstOn(offers, attached, k) ==> FirstOn(offers, rest, k - 1)
      {
      }
    }
  }

  /**
    Where an agent without a host runs: on the first attached runtime whose offer can
    run it, else nowhere, for the first attached one that offers it; with none of them
    offering it, it needs one of those that do.
   */
  lemma UnhostedPlace(agent: Agent, offers: seq<Offer>, attached: seq<string>)
    requires OffersOf(agent, offers) && offers != []
    ensures var place := Place(agent, attached, None);
            && (forall k: nat :: FirstOn(offers, attached, k) ==> place == Some(Runs(attached[k])))
            && ((forall j :: 0 <= j < |attached| ==> !OfferedFirst(offers, attached[j], true)) ==>
                  forall k: nat :: FirstHere(offers, attached, k) ==> place == Some(Unavailable(attached[k])))
            && ((forall k :: 0 <= k < |attached| ==> !Offered(offers, attached[k])) ==>
                  && place.Some? && place.value.NeedsOneOf? && |place.value.runtimes| == |offers|
                  && forall i :: 0 <= i < |offers| ==> place.value.runtimes[i] == offers[i].runtime)
  {
    OffersFound(offers);
    HereIs(offers, attached);
    PlaceByHere(agent, offers, attached);
    hide Offered, OfferedFirst, FirstOn, FirstHere, Here, FirstAvailable, FindOffer, Place, OffersOf;
  }

  lemma PlaceByHere(agent: Agent, offers: seq<Offer>, attached: seq<string>)
    requires OffersOf(agent, offers) && offers != []
    ensures var here, place := Here(offers, attached), Place(agent, attached, None);
            var first := FirstAvailable(here);
            && (first.Some? ==> place == Some(Runs(first.value.runtime)))
            && (first.None? && here != [] ==> place == Some(Unavailable(here[0].runtime)))
            && (here == [] ==>
                  && place.Some? && place.value.NeedsOneOf? && |place.value.runtimes| == |offers|
                  && forall i :: 0 <= i < |offers| ==> place.value.runtimes[i] == offers[i].runtime)
  {
    hide Here, FindOffer;
    assert Offering(agent) == offers;
  }

  lemma OffersFound(offers: seq<Offer>)
    ensures forall r :: Offered(offers, r) <==> FindOffer(offers, r).Some?
    ensures forall r :: OfferedFirst(offers, r, true) <==>
              FindOffer(offers, r).Some? && FindOffer(offers, r).value.available
  {
    forall r: string
      ensures Offered(offers, r) <==> FindOffer(offers, r).Some?
      ensures OfferedFirst(offers, r, true) <==> FindOffer(offers, r).Some? && FindOffer(offers, r).value.available
    {
      FoundFirst(offers, r);
    }
  }

  /** The runtime an agent is placed on is told by its first offer, also when that cannot run the agent. */
  lemma PlacedIs(agent: Agent, offers: seq<Offer>, attached: seq<string>, host: Option<string>, runtime: string)
    requires OffersOf(agent, offers)
    requires Place(agent, attached, host) in {Some(Runs(runtime)), Some(Unavailable(runtime))}
    ensures var placed := PlacedRuntime(agent, attached, host);
            && (placed.Some? <==> Offered(offers, runtime))
            && (placed.Some? ==>
                  placed.value.runtime == runtime && OfferedFirst(offers, runtime, placed.value.available))
  {
    assert PlacedRuntime(agent, attached, host) == FindOffer(offers, runtime) by { hide FindOffer; }
    hide Place, PlacedRuntime;
    FoundFirst(offers, runtime);
    OffersFound(offers);
    hide FindOffer;
  }

  /** The daemon's own agents, which no runtime offers, are placed nowhere and can be picked as they run as roots. */
  lemma OwnAgentsArePickable(agent: Agent, attached: seq<string>, host: Option<string>)
    requires OffersOf(agent, [])
    ensures Place(agent, attached, host) == None && PlacedRuntime(agent, attached, host) == None
    ensures Pickable(agent, attached, host) <==> agent.runnableAsRoot
    ensures DefaultRuntime(agent, attached) == None
  {
    FirstThatRunsIs([], attached);
  }

  /** Of the attached runtimes, `attached[k]` is the first that can run the agent. */
  ghost predicate FirstAble(offers: seq<Offer>, attached: seq<string>, k: nat) {
    k < |attached| && CanRunOn(offers, attached[k]) && forall j :: 0 <= j < k ==> !CanRunOn(offers, attached[j])
  }

  /** The offer `i` is the first that can run the agent. */
  ghost predicate AbleFirst(offers: seq<Offer>, i: nat) {
    i < |offers| && offers[i].available && forall j :: 0 <= j < i ==> !offers[j].available
  }

  lemma {:induction false} FirstThatRunsIs(offers: seq<Offer>, attached: seq<string>)
    ensures forall k: nat :: FirstAble(offers, attached, k) ==> FirstThatRuns(offers, attached) == Some(attached[k])
    ensures FirstThatRuns(offers, attached).Some? ==> exists k: nat :: FirstAble(offers, attached, k)
  {
    if attached != [] {
      var rest := attached[1..];
      FirstThatRunsIs(offers, rest);
      hide CanRunOn;
      assert forall j :: 0 < j < |attached| ==> attached[j] == rest[j - 1];
      if CanRunOn(offers, attached[0]) {
        assert FirstAble(offers, attached, 0);
      } else {
        forall k: nat
          ensures k > 0 && FirstAble(offers, attached, k) ==> FirstAble(offers, rest, k - 1)
        {
        }
        if k: nat :| FirstAble(offers, rest, k) {
          assert FirstAble(offers, attached, k + 1);
        }
      }
    }
  }

  lemma {:induction false} FirstAvailableIs(offers: seq<Offer>)
    ensures forall i: nat :: AbleFirst(offers, i) ==> FirstAvailable(offers) == Some(offers[i])
  {
    if offers != [] {
      var rest := offers[1..];
      FirstAvailableIs(rest);
      forall i: nat
        ensures i > 0 && AbleFirst(offers, i) ==> AbleFirst(rest, i - 1) && rest[i - 1] == offers[i]
      {
      }
    }
  }

  /** The default runtime: the first attached one that can run the agent, or else the first that can at all. */
  lemma DefaultIs(agent: Agent, offers: seq<Offer>, attached: seq<string>)
    requires OffersOf(agent, offers)
    ensures var runtime := DefaultRuntime(agent, attached);
            && (forall k: nat :: FirstAble(offers, attached, k) ==> runtime == Some(attached[k]))
            && ((forall k :: 0 <= k < |attached| ==> !CanRunOn(offers, attached[k])) ==>
                  forall i: nat :: AbleFirst(offers, i) ==> runtime == Some(offers[i].runtime))
            && ((forall i :: 0 <= i < |offers| ==> !offers[i].available) ==> runtime == None)
  {
    FirstThatRunsIs(offers, attached);
    FirstAvailableIs(offers);
  }

  // ----------------------------------------------------------------- options

  /** The first option with the choice's id that takes its value. */
  function Takes(options: seq<ConfigOption>, c: OptionChoice): (r: Option<nat>)
    ensures r.Some? ==> r.value < |options| && options[r.value].id == c.option && c.value in options[r.value].values
    ensures r.None? ==> forall i :: 0 <= i < |options| && options[i].id == c.option ==> c.value !in options[i].values
  {
    if options == [] then None
    else if options[0].id == c.option && c.value in options[0].values then Some(0)
    else match Takes(options[1..], c)
      case None => None
      case Some(i) => Some(i + 1)
  }

  function Chosen(options: seq<ConfigOption>, c: OptionChoice): (r: seq<ConfigOption>)
    ensures |r| == |options|
  {
    match Takes(options, c)
    case None => options
    case Some(i) => options[i := options[i].(current := c.value)]
  }

  function ChosenAll(options: seq<ConfigOption>, choices: seq<OptionChoice>): seq<ConfigOption> {
    if choices == [] then options
    else Chosen(ChosenAll(options, choices[..|choices| - 1]), choices[|choices| - 1])
  }

  /** `with_choices`. */
  method WithChoices(options: seq<ConfigOption>, choices: seq<OptionChoice>) returns (r: seq<ConfigOption>)
    ensures r == ChosenAll(options, choices)
  {
    r := options;
    for n := 0 to |choices|
      invariant r == ChosenAll(options, choices[..n])
    {
      assert choices[..n + 1][..n] == choices[..n];
      var i := Takes(r, choices[n]);
      if i.Some? {
        r := r[i.value := r[i.value].(current := choices[n].value)];
      }
    }
    assert choices[..|choices|] == choices;
  }

  /** What an option is after the choices: the last one it lists, else what it was. */
  function LastListed(o: ConfigOption, choices: seq<OptionChoice>): string {
    if choices == [] then o.current
    else
      var c := choices[|choices| - 1];
      if c.option == o.id && c.value in o.values then c.value else LastListed(o, choices[..|choices| - 1])
  }

  ghost predicate DistinctIds(options: seq<ConfigOption>) {
    forall i, j :: 0 <= i < j < |options| ==> options[i].id != options[j].id
  }

  lemma {:induction false} EachTakesItsLastChoice(options: seq<ConfigOption>, choices: seq<OptionChoice>)
    requires DistinctIds(options)
    ensures var r := ChosenAll(options, choices);
            |r| == |options| && forall i :: 0 <= i < |r| ==>
                r[i] == options[i].(current := LastListed(options[i], choices))
    decreases |choices|
  {
    if choices != [] {
      var before, c := choices[..|choices| - 1], choices[|choices| - 1];
      EachTakesItsLastChoice(options, before);
      var r := ChosenAll(options, before);
      var t := Takes(r, c);
      forall i | 0 <= i < |options|
        ensures Chosen(r, c)[i] == options[i].(current := LastListed(options[i], choices))
      {
        if options[i].id == c.option && c.value in options[i].values {
          assert r[i].id == c.option;
          assert t.Some? && options[t.value].id == options[i].id;
          assert t.value == i;
        }
      }
    }
  }

  lemma {:induction false} LastListedTwice(o: ConfigOption, choices: seq<OptionChoice>, current: string)
    ensures LastListed(o.(current := LastListed(o, choices)), choices) == LastListed(o, choices)
    ensures LastListed(o.(current := current), choices) == current
              || LastListed(o.(current := current), choices) == LastListed(o, choices)
    decreases |choices|
  {
    if choices != [] {
      var before := choices[..|choices| - 1];
      LastListedTwice(o, before, current);
      LastListedTwice(o, before, LastListed(o, choices));
    }
  }

  /** Applying the choices again changes nothing. */
  lemma ChoicesAreIdempotent(options: seq<ConfigOption>, choices: seq<OptionChoice>)
    requires DistinctIds(options)
    ensures ChosenAll(ChosenAll(options, choices), choices) == ChosenAll(options, choices)
  {
    var once := ChosenAll(options, choices);
    EachTakesItsLastChoice(options, choices);
    assert DistinctIds(once);
    EachTakesItsLastChoice(once, choices);
    forall i | 0 <= i < |options|
      ensures ChosenAll(once, choices)[i] == once[i]
    {
      LastListedTwice(options[i], choices, options[i].current);
    }
  }

  /** The options a draft offers: the placed runtime's, with the choices made. */
  function DraftOptions(agent: Agent, attached: seq<string>, host: Option<string>,
      choices: seq<OptionChoice>): seq<ConfigOption> {
    match PlacedRuntime(agent, attached, host)
    case None => []
    case Some(o) => ChosenAll(o.options, choices)
  }

  /** A draft offers the same options once the runtime it is placed on is chosen as its host. */
  lemma DraftOptionsStay(agent: Agent, attached: seq<string>, host: Option<string>, choices: seq<OptionChoice>)
    requires Offering(agent) != [] && DistinctRuntimes(Offering(agent)) && Pickable(agent, attached, host)
    ensures var placed := PlacedRuntime(agent, attached, host);
            && placed.Some?
            && DraftOptions(agent, attached, Some(placed.value.runtime), choices) ==
                DraftOptions(agent, attached, host, choices)
            && (DistinctIds(placed.value.options) ==>
                ChosenAll(DraftOptions(agent, attached, host, choices), choices) ==
                    DraftOptions(agent, attached, host, choices))
  {
    PickableIffPlacedCanRun(agent, attached, host);
    var placed := PlacedRuntime(agent, attached, host).value;
    if DistinctIds(placed.options) { ChoicesAreIdempotent(placed.options, choices); }
  }

  // ------------------------------------------------------------ a draft's choices

  datatype Op = Choose(agent: string, option: string, value: string) | Clear

  function Put(choices: seq<OptionChoice>, option: string, value: string): seq<OptionChoice> {
    if choices == [] then [OptionChoice(option, value)]
    else if choices[0].option == option then [OptionChoice(option, value)] + choices[1..]
    else [choices[0]] + Put(choices[1..], option, value)
  }

  /** The choices made for `agent` since another agent was chosen for or the draft cleared. */
  function LatestRun(history: seq<Op>, agent: string): seq<OptionChoice> {
    if history == [] then []
    else
      var last := history[|history| - 1];
      if last.Choose? && last.agent == agent
      then LatestRun(history[..|history| - 1], agent) + [OptionChoice(last.option, last.value)]
      else []
  }

  /** Each option once, with its latest value. */
  function Merged(run: seq<OptionChoice>): seq<OptionChoice> {
    if run == [] then []
    else Put(Merged(run[..|run| - 1]), run[|run| - 1].option, run[|run| - 1].value)
  }

  /** Choices of option values, kept for the one agent they were made for. */
  class DraftAgentOptions {
    var agent: Option<string>
    var choices: seq<OptionChoice>
    ghost var history: seq<Op>

    /** What is kept is what the latest run of choices for the agent comes to. */
    ghost predicate Valid()
      reads this
    {
      && (agent.Some? ==> choices == Merged(LatestRun(history, agent.value)))
      && (forall a :: agent != Some(a) ==> LatestRun(history, a) == [])
    }

    constructor ()
      ensures Valid() && history == []
    {
      agent, choices, history := None, [], [];
    }

    method ForAgent(a: string) returns (r: seq<OptionChoice>)
      requires Valid()
      ensures r == Merged(LatestRun(history, a))
    {
      r := if agent == Some(a) then choices else [];
    }

    method Choose(a: string, option: string, value: string)
      requires Valid()
      modifies this
      ensures Valid() && history == old(history) + [Op.Choose(a, option, value)]
    {
      if agent != Some(a) {
        agent := Some(a);
        choices := [];
      }
      RunsAfterChoice(history, a, option, value);
      choices := Putting(choices, option, value);
      history := history + [Op.Choose(a, option, value)];
    }

    method Clear()
      requires Valid()
      modifies this
      ensures Valid() && history == old(history) + [Op.Clear]
    {
      agent, choices := None, [];
      history := history + [Op.Clear];
    }
  }

  /** Replaces the option's choice, or adds it. */
  method Putting(choices: seq<OptionChoice>, option: string, value: string) returns (r: seq<OptionChoice>)
    ensures r == Put(choices, option, value)
  {
    var i := 0;
    while i < |choices| && choices[i].option != option
      invariant i <= |choices|
      invariant forall j :: 0 <= j < i ==> choices[j].option != option
    {
      i := i + 1;
    }
    PutAt(choices, option, value, i);
    r := if i < |choices| then choices[i := OptionChoice(option, value)] else choices + [OptionChoice(option, value)];
  }

  /** A choice extends its own agent's run, and ends every other's. */
  lemma RunsAfterChoice(history: seq<Op>, a: string, option: string, value: string)
    ensures var after := history + [Op.Choose(a, option, value)];
            && Merged(LatestRun(after, a)) == Put(Merged(LatestRun(history, a)), option, value)
            && forall b :: b != a ==> LatestRun(after, b) == []
  {
    var after := history + [Op.Choose(a, option, value)];
    assert after[..|after| - 1] == history;
    var run, last := LatestRun(history, a), OptionChoice(option, value);
    assert LatestRun(after, a) == run + [last];
    assert (run + [last])[..|run|] == run;
  }

  lemma {:induction false} PutAt(choices: seq<OptionChoice>, option: string, value: string, i: nat)
    requires i <= |choices| && forall j :: 0 <= j < i ==> choices[j].option != option
    requires i < |choices| ==> choices[i].option == option
    ensures Put(choices, option, value) ==
            if i < |choices| then choices[i := OptionChoice(option, value)] else choices + [OptionChoice(option, value)]
  {
    if choices != [] && i > 0 {
      PutAt(choices[1..], option, value, i - 1);
    }
  }

  ghost predicate OneEach(choices: seq<OptionChoice>) {
    forall i, j :: 0 <= i < j < |choices| ==> choices[i].option != choices[j].option
  }

  /** `c` is the last choice of its option in `run`. */
  ghost predicate IsLastOf(run: seq<OptionChoice>, c: OptionChoice) {
    exists i :: 0 <= i < |run| && run[i] == c && forall j :: i < j < |run| ==> run[j].option != c.option
  }

  lemma {:induction false} PutKeepsOthers(choices: seq<OptionChoice>, option: string, value: string)
    requires OneEach(choices)
    ensures OneEach(Put(choices, option, value))
    ensures forall c :: c in Put(choices, option, value) <==>
              c == OptionChoice(option, value) || (c in choices && c.option != option)
  {
    if choices != [] {
      PutKeepsOthers(choices[1..], option, value);
      var put := Put(choices, option, value);
      if choices[0].option == option {
        assert forall c :: c in choices[1..] ==> c.option != option;
      } else {
        assert put[1..] == Put(choices[1..], option, value);
        forall j | 0 < j < |put|
          ensures put[j].option != put[0].option
        {
          assert put[j] in put[1..];
          if put[j].option != option { assert put[j] in choices[1..]; }
        }
      }
    }
  }

  /** A draft's choices are one entry per option of the run, each with its last value. */
  lemma {:induction false} MergedIsLastOfEach(run: seq<OptionChoice>)
    ensures OneEach(Merged(run))
    ensures forall c :: c in Merged(run) <==> IsLastOf(run, c)
    decreases |run|
  {
    if run != [] {
      var before, last := run[..|run| - 1], run[|run| - 1];
      MergedIsLastOfEach(before);
      PutKeepsOthers(Merged(before), last.option, last.value);
      forall c
        ensures c in Merged(run) <==> IsLastOf(run, c)
      {
        LastOfSnoc(before, last, c);
        assert run == before + [last];
      }
    }
  }

  lemma LastOfSnoc(before: seq<OptionChoice>, last: OptionChoice, c: OptionChoice)
    ensures IsLastOf(before + [last], c) <==> c == last || (c.option != last.option && IsLastOf(before, c))
  {
    var run := before + [last];
    assert run[|before|] == last;
    if c.option != last.option {
      if IsLastOf(run, c) {
        var i :| 0 <= i < |run| && run[i] == c && forall j :: i < j < |run| ==> run[j].option != c.option;
        assert forall j :: i < j < |before| ==> run[j] == before[j];
        assert before[i] == c;
      }
      if IsLastOf(before, c) {
        var i :| 0 <= i < |before| && before[i] == c && forall j :: i < j < |before| ==> before[j].option != c.option;
        assert run[i] == c;
      }
    }
  }
}
