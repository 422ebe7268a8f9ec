/**
  The plan of the browser scenarios to run (scenarios.py): the scenarios asked
  for with all they need, by group.
 */
module ScenarioPlan {
  import opened Results
  import opened Sequences

  datatype Scenario = Scenario(name: string, group: string, needs: seq<string>)

  datatype Group = Group(name: string, members: seq<string>)

  /** The scenarios by name; of two of the same name, the later. */
  function Known(suite: seq<Scenario>): (m: map<string, Scenario>)
    ensures forall n :: n in m ==> m[n] in suite && m[n].name == n
    ensures forall s :: s in suite ==> s.name in m
  {
    if suite == [] then map[]
    else
      assert suite == suite[..|suite| - 1] + [suite[|suite| - 1]];
      Known(suite[..|suite| - 1])[suite[|suite| - 1].name := suite[|suite| - 1]]
  }

  ghost predicate NeedsAreKnown(suite: seq<Scenario>) {
    forall s, need :: s in suite && need in s.needs ==> need in Known(suite)
  }

  ghost predicate DistinctNames(suite: seq<Scenario>) {
    forall i, j :: 0 <= i < j < |suite| ==> suite[i].name != suite[j].name
  }

  // --------------------------------------------------------- what a request needs

  /** Each scenario of the path needs the next. */
  ghost predicate NeedsPath(known: map<string, Scenario>, path: seq<string>) {
    && path != []
    && forall i :: 0 <= i < |path| - 1 ==> path[i] in known && path[i + 1] in known[path[i]].needs
  }

  /** A path of needs leads from the request to `name`. */
  ghost predicate Needed(known: map<string, Scenario>, request: set<string>, name: string) {
    exists path :: NeedsPath(known, path) && path[0] in request && path[|path| - 1] == name
  }

  ghost predicate Closed(known: map<string, Scenario>, chosen: set<string>) {
    forall n, need :: n in chosen && n in known && need in known[n].needs ==> need in chosen
  }

  lemma NeedOfNeeded(known: map<string, Scenario>, request: set<string>, n: string, need: string)
    requires Needed(known, request, n) && n in known && need in known[n].needs
    ensures Needed(known, request, need)
  {
    var path :| NeedsPath(known, path) && path[0] in request && path[|path| - 1] == n;
    var longer := path + [need];
    assert NeedsPath(known, longer) && longer[0] in request && longer[|longer| - 1] == need;
  }

  lemma RequestIsNeeded(known: map<string, Scenario>, request: set<string>, n: string)
    requires n in request
    ensures Needed(known, request, n)
  {
    assert NeedsPath(known, [n]) && [n][0] in request;
  }

  lemma {:induction false} PathStaysInside(known: map<string, Scenario>, chosen: set<string>, path: seq<string>)
    requires Closed(known, chosen) && NeedsPath(known, path) && path[0] in chosen
    ensures path[|path| - 1] in chosen
    decreases |path|
  {
    if |path| > 1 {
      PathStaysInside(known, chosen, path[1..]);
    }
  }

  /** What is needed is the least set with the request in it that is closed under needs. */
  lemma NeededIsLeast(known: map<string, Scenario>, request: set<string>, chosen: set<string>)
    ensures (forall n :: n in chosen <==> Needed(known, request, n)) <==>
            && request <= chosen && Closed(known, chosen)
            && forall other :: request <= other && Closed(known, other) ==> chosen <= other
  {
    if forall n :: n in chosen <==> Needed(known, request, n) {
      NeededIsClosed(known, request, chosen);
      forall other | request <= other && Closed(known, other)
        ensures chosen <= other
      {
        NeededIsInside(known, request, other);
      }
    }
    if request <= chosen && Closed(known, chosen)
       && forall other :: request <= other && Closed(known, other) ==> chosen <= other {
      NeededIsInside(known, request, chosen);
      var needed := set n | n in chosen && Needed(known, request, n);
      NeededIsClosed(known, request, needed);
      assert chosen <= needed;
    }
  }

  lemma NeededIsInside(known: map<string, Scenario>, request: set<string>, other: set<string>)
    requires request <= other && Closed(known, other)
    ensures forall n :: Needed(known, request, n) ==> n in other
  {
    forall n | Needed(known, request, n)
      ensures n in other
    {
      var path :| NeedsPath(known, path) && path[0] in request && path[|path| - 1] == n;
      PathStaysInside(known, other, path);
    }
  }

  lemma NeededIsClosed(known: map<string, Scenario>, request: set<string>, chosen: set<string>)
    requires forall n :: n in chosen <==> Needed(known, request, n)
    ensures request <= chosen && Closed(known, chosen)
  {
    forall n | n in request
      ensures n in chosen
    {
      RequestIsNeeded(known, request, n);
    }
    forall n, need | n in chosen && n in known && need in known[n].needs
      ensures need in chosen
    {
      NeedOfNeeded(known, request, n, need);
    }
  }

  /** A set's elements in some order. */
  method Listed(s: set<string>) returns (list: seq<string>)
    ensures forall n :: n in list <==> n in s
  {
    list := [];
    var left := s;
    while left != {}
      invariant left <= s && forall n :: n in list <==> n in s && n !in left
      decreases |left|
    {
      var n :| n in left;
      list, left := list + [n], left - {n};
    }
  }

  /** The worklist: whatever order it starts in, it ends with exactly what the request needs. */
  method Choose(known: map<string, Scenario>, request: set<string>) returns (chosen: set<string>)
    requires request <= known.Keys
    requires forall n, need :: n in known && need in known[n].needs ==> need in known
    ensures chosen <= known.Keys
    ensures forall n :: n in chosen <==> Needed(known, request, n)
  {
    hide Needed;
    chosen := request;
    var pending := Listed(chosen);
    forall n | n in chosen
      ensures Needed(known, request, n)
    {
      RequestIsNeeded(known, request, n);
    }
    while pending != []
      invariant request <= chosen <= known.Keys
      invariant forall n :: n in pending ==> n in chosen
      invariant forall n :: n in chosen ==> Needed(known, request, n)
      invariant forall n, need :: n in chosen && n !in pending && need in known[n].needs ==> need in chosen
      decreases known.Keys - chosen, |pending|
    {
      ghost var before, had := pending, chosen;
      var n := pending[|pending| - 1];
      pending := pending[..|pending| - 1];
      assert before == pending + [n];
      var needs := known[n].needs;
      for i := 0 to |needs|
        invariant had <= chosen <= known.Keys
        invariant forall m :: m in pending ==> m in chosen
        invariant forall m :: m in chosen ==> Needed(known, request, m)
        invariant forall m :: m in before ==> m == n || m in pending
        invariant forall m :: m in chosen ==> m in had || m in pending
        invariant forall k :: 0 <= k < i ==> needs[k] in chosen
        invariant chosen == had ==> pending == before[..|before| - 1]
      {
        if needs[i] !in chosen {
          NeedOfNeeded(known, request, n, needs[i]);
          chosen := chosen + {needs[i]};
          pending := pending + [needs[i]];
        }
      }
      assert known.Keys - chosen <= known.Keys - had;
    }
    NeededIsInside(known, request, chosen);
  }

  // ------------------------------------------------------------------ the groups

  /** `name` added to the list of `group`, which goes last when it is new. */
  function Added(groups: seq<Group>, group: string, name: string): seq<Group> {
    if groups == [] then [Group(group, [name])]
    else if groups[0].name == group then [groups[0].(members := groups[0].members + [name])] + groups[1..]
    else [groups[0]] + Added(groups[1..], group, name)
  }

  function Grouped(suite: seq<Scenario>, chosen: set<string>): seq<Group> {
    if suite == [] then []
    else
      var init, last := suite[..|suite| - 1], suite[|suite| - 1];
      if last.name in chosen then Added(Grouped(init, chosen), last.group, last.name) else Grouped(init, chosen)
  }

  /** The chosen scenarios of a group, in suite order. */
  function MembersOf(suite: seq<Scenario>, chosen: set<string>, group: string): seq<string> {
    if suite == [] then []
    else
      (if suite[0].name in chosen && suite[0].group == group then [suite[0].name] else [])
      + MembersOf(suite[1..], chosen, group)
  }

  /** The groups of the chosen scenarios, each where it first comes up. */
  function GroupNames(suite: seq<Scenario>, chosen: set<string>): seq<string> {
    if suite == [] then []
    else
      var names, last := GroupNames(suite[..|suite| - 1], chosen), suite[|suite| - 1];
      if last.name in chosen && last.group !in names then names + [last.group] else names
  }

  lemma {:induction false} MembersAppend(init: seq<Scenario>, last: Scenario, chosen: set<string>, group: string)
    ensures MembersOf(init + [last], chosen, group) ==
            MembersOf(init, chosen, group) + if last.name in chosen && last.group == group then [last.name] else []
  {
    if init == [] {
      assert [] + [last] == [last];
    } else {
      assert (init + [last])[1..] == init[1..] + [last];
      MembersAppend(init[1..], last, chosen, group);
    }
  }

  lemma {:induction false} GroupNamesDistinct(suite: seq<Scenario>, chosen: set<string>)
    ensures Distinct(GroupNames(suite, chosen))
    ensures forall g :: g in GroupNames(suite, chosen) <==> MembersOf(suite, chosen, g) != []
  {
    if suite != [] {
      var init, last := suite[..|suite| - 1], suite[|suite| - 1];
      GroupNamesDistinct(init, chosen);
      assert suite == init + [last];
      forall g
        ensures g in GroupNames(suite, chosen) <==> MembersOf(suite, chosen, g) != []
      {
        MembersAppend(init, last, chosen, g);
      }
    }
  }

  lemma {:induction false} AddedAt(groups: seq<Group>, names: seq<string>, group: string, name: string)
    requires |groups| == |names| && Distinct(names)
    requires forall i :: 0 <= i < |groups| ==> groups[i].name == names[i]
    ensures var after := Added(groups, group, name);
            && |after| == (if group in names then |groups| else |groups| + 1)
            && (forall i :: 0 <= i < |groups| ==>
                  after[i] == if names[i] == group then Group(group, groups[i].members + [name]) else groups[i])
            && (group !in names ==> after[|groups|] == Group(group, [name]))
  {
    if groups != [] && names[0] != group {
      AddedAt(groups[1..], names[1..], group, name);
    }
  }

  /** The groups are those of `names`, each with all its chosen scenarios. */
  ghost predicate HoldMembers(groups: seq<Group>, names: seq<string>, suite: seq<Scenario>, chosen: set<string>) {
    && |groups| == |names|
    && forall i :: 0 <= i < |names| ==> groups[i] == Group(names[i], MembersOf(suite, chosen, names[i]))
  }

  lemma OneMoreMember(init: seq<Scenario>, last: Scenario, chosen: set<string>)
    requires HoldMembers(Grouped(init, chosen), GroupNames(init, chosen), init, chosen)
    ensures var suite := init + [last];
            HoldMembers(Grouped(suite, chosen), GroupNames(suite, chosen), suite, chosen)
  {
    assert (init + [last])[..|init|] == init;
    var groups, names := Grouped(init, chosen), GroupNames(init, chosen);
    GroupNamesDistinct(init, chosen);
    OneMoreGrouped(init, last, chosen);
    hide Grouped, GroupNames, HoldMembers;
    if last.name in chosen {
      MemberAdded(groups, names, init, last, chosen);
    } else {
      NothingAdded(groups, names, init, last, chosen);
    }
  }

  lemma OneMoreGrouped(init: seq<Scenario>, last: Scenario, chosen: set<string>)
    ensures var groups, names := Grouped(init, chosen), GroupNames(init, chosen);
            && Grouped(init + [last], chosen) ==
               (if last.name in chosen then Added(groups, last.group, last.name) else groups)
            && GroupNames(init + [last], chosen) ==
               if last.name in chosen && last.group !in names then names + [last.group] else names
  {
    assert (init + [last])[..|init|] == init;
  }

  lemma NothingAdded(groups: seq<Group>, names: seq<string>, init: seq<Scenario>, last: Scenario, chosen: set<string>)
    requires HoldMembers(groups, names, init, chosen) && last.name !in chosen
    ensures HoldMembers(groups, names, init + [last], chosen)
  {
    hide MembersOf;
    forall i | 0 <= i < |names|
      ensures groups[i] == Group(names[i], MembersOf(init + [last], chosen, names[i]))
    {
      MembersAppend(init, last, chosen, names[i]);
      assert MembersOf(init, chosen, names[i]) + [] == MembersOf(init, chosen, names[i]);
    }
  }

  lemma MemberAdded(groups: seq<Group>, names: seq<string>, init: seq<Scenario>, last: Scenario, chosen: set<string>)
    requires HoldMembers(groups, names, init, chosen) && last.name in chosen && Distinct(names)
    requires forall g :: g in names <==> MembersOf(init, chosen, g) != []
    ensures HoldMembers(Added(groups, last.group, last.name),
                        if last.group in names then names else names + [last.group], init + [last], chosen)
  {
    AddedAt(groups, names, last.group, last.name);
    hide MembersOf, Added, Distinct;
    var after := Added(groups, last.group, last.name);
    var more := if last.group in names then names else names + [last.group];
    forall i | 0 <= i < |more|
      ensures after[i] == Group(more[i], MembersOf(init + [last], chosen, more[i]))
    {
      MembersAppend(init, last, chosen, more[i]);
      if i < |names| {
        assert MembersOf(init, chosen, names[i]) + [] == MembersOf(init, chosen, names[i]);
      } else {
        assert MembersOf(init, chosen, last.group) == [];
      }
    }
  }

  lemma {:induction false} EveryGroupHoldsMembers(suite: seq<Scenario>, chosen: set<string>)
    ensures HoldMembers(Grouped(suite, chosen), GroupNames(suite, chosen), suite, chosen)
  {
    if suite != [] {
      hide HoldMembers;
      EveryGroupHoldsMembers(suite[..|suite| - 1], chosen);
      OneMoreMember(suite[..|suite| - 1], suite[|suite| - 1], chosen);
      assert suite == suite[..|suite| - 1] + [suite[|suite| - 1]];
    }
  }

  /** Each group holds all its chosen scenarios in suite order, and the groups come as they first come up. */
  lemma GroupsAreTheirMembers(suite: seq<Scenario>, chosen: set<string>)
    ensures var groups, names := Grouped(suite, chosen), GroupNames(suite, chosen);
            && |groups| == |names| && Distinct(names)
            && forall i :: 0 <= i < |groups| ==>
                 groups[i] == Group(names[i], MembersOf(suite, chosen, names[i])) && groups[i].members != []
  {
    EveryGroupHoldsMembers(suite, chosen);
    GroupNamesDistinct(suite, chosen);
    hide Grouped, GroupNames, MembersOf;
  }

  lemma {:induction false} MembersAre(suite: seq<Scenario>, chosen: set<string>, group: string)
    requires DistinctNames(suite)
    ensures Distinct(MembersOf(suite, chosen, group))
    ensures forall n :: n in MembersOf(suite, chosen, group) <==>
                        n in chosen && exists s :: s in suite && s.name == n && s.group == group
  {
    if suite != [] {
      MembersAre(suite[1..], chosen, group);
      assert suite == [suite[0]] + suite[1..];
    }
  }

  /** Every chosen scenario is in exactly one place of one group, and nothing else is. */
  lemma GroupsPartition(suite: seq<Scenario>, chosen: set<string>)
    requires DistinctNames(suite) && chosen <= Known(suite).Keys
    ensures var groups := Grouped(suite, chosen);
            && (forall n :: n in chosen <==> exists i :: 0 <= i < |groups| && n in groups[i].members)
            && (forall i, j, k, l ::
                  (0 <= i < |groups| && 0 <= j < |groups[i].members|
                   && 0 <= k < |groups| && 0 <= l < |groups[k].members|
                   && groups[i].members[j] == groups[k].members[l]) ==> i == k && j == l)
  {
    var groups := Grouped(suite, chosen);
    GroupsAreTheirMembers(suite, chosen);
    GroupNamesDistinct(suite, chosen);
    hide Grouped, GroupNames, MembersOf;
    forall g
      ensures Distinct(MembersOf(suite, chosen, g))
      ensures forall n :: n in MembersOf(suite, chosen, g) <==>
                          n in chosen && exists s :: s in suite && s.name == n && s.group == g
    {
      MembersAre(suite, chosen, g);
    }
    forall n | n in chosen
      ensures exists i :: 0 <= i < |groups| && n in groups[i].members
    {
      var g := Known(suite)[n].group;
      assert n in MembersOf(suite, chosen, g);
      assert g in GroupNames(suite, chosen);
    }
    forall i, j, k, l | 0 <= i < |groups| && 0 <= j < |groups[i].members| && 0 <= k < |groups|
                        && 0 <= l < |groups[k].members| && groups[i].members[j] == groups[k].members[l]
      ensures i == k && j == l
    {
      var n := groups[i].members[j];
      assert n in MembersOf(suite, chosen, groups[i].name) && n in MembersOf(suite, chosen, groups[k].name);
      OneGroup(suite, groups[i].members[j], groups[i].name, groups[k].name);
    }
  }

  lemma OneGroup(suite: seq<Scenario>, n: string, g: string, h: string)
    requires DistinctNames(suite)
    requires exists s :: s in suite && s.name == n && s.group == g
    requires exists s :: s in suite && s.name == n && s.group == h
    ensures g == h
  {
  }

  // -------------------------------------------------------------------- the plan

  function Unknown(known: map<string, Scenario>, names: seq<string>): (r: seq<string>)
    ensures r == [] <==> forall n :: n in names ==> n in known
  {
    if names == [] then []
    else
      assert names == [names[0]] + names[1..];
      (if names[0] in known then [] else [names[0]]) + Unknown(known, names[1..])
  }

  /** The groups to run for the scenarios `names`, all of them when it is empty. */
  method Plan(suite: seq<Scenario>, names: seq<string>) returns (r: Result<seq<seq<string>>, seq<string>>)
    requires NeedsAreKnown(suite)
    ensures r.Err? <==> exists n :: n in names && n !in Known(suite)
    ensures r.Err? ==> r.error == Unknown(Known(suite), names)
    ensures r.Ok? ==>
              var request := if names == [] then Known(suite).Keys else (set n | n in names);
              exists chosen: set<string> ::
                && (forall n :: n in chosen <==> Needed(Known(suite), request, n))
                && chosen <= Known(suite).Keys
                && r.value == Lists(Grouped(suite, chosen))
  {
    hide Needed, Known, Unknown;
    var known := Known(suite);
    var unknown := Unknown(known, names);
    if unknown != [] {
      return Err(unknown);
    }
    var request := if names == [] then known.Keys else (set n | n in names);
    var chosen := Choose(known, request);
    var groups: seq<Group> := [];
    for i := 0 to |suite|
      invariant groups == Grouped(suite[..i], chosen)
    {
      assert suite[..i + 1][..i] == suite[..i];
      if suite[i].name in chosen {
        groups := Added(groups, suite[i].group, suite[i].name);
      }
    }
    assert suite[..|suite|] == suite;
    r := Ok(Lists(groups));
  }

  function Lists(groups: seq<Group>): (r: seq<seq<string>>)
    ensures |r| == |groups| && forall i :: 0 <= i < |r| ==> r[i] == groups[i].members
  {
    seq(|groups|, i requires 0 <= i < |groups| => groups[i].members)
  }
}
