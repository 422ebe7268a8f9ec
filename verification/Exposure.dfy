/**
  Tool group and skill choices, and the row that tells how they changed
  (exposure.rs). Groups and skills follow the same rules, so both are lists of
  rules by key: a group's selector, a skill's name.
 */
module Exposure {
  import opened Results
  import opened Text
  import opened Identities

  datatype GroupState = On | Deferred | Off

  datatype SkillState = SkillOn | SkillOff

  datatype Rule<S> = Rule(key: string, state: S, fromProject: bool)

  datatype ToolExposure = ToolExposure(groups: seq<Rule<GroupState>>, skills: seq<Rule<SkillState>>)

  // ------------------------------------------------------------ one choice

  function Without<S>(rules: seq<Rule<S>>, key: string): seq<Rule<S>> {
    if rules == [] then []
    else if rules[0].key == key then Without(rules[1..], key)
    else [rules[0]] + Without(rules[1..], key)
  }

  /** `rules` with `state` chosen for `key`; what the layers below give is no choice. */
  function With<S(==)>(rules: seq<Rule<S>>, key: string, state: Option<S>, below: S): seq<Rule<S>> {
    Without(rules, key) + if state.Some? && state.value != below then [Rule(key, state.value, false)] else []
  }

  predicate ValidSkill(name: string) {
    1 <= ByteLen(name) <= 128 && forall i :: 0 <= i < |name| ==>
      IsLower(name[i]) || IsDigit(name[i]) || name[i] in {'-', '_', '*', '?'}
  }

  /** A skill's name: at most 128 small letters, digits, dashes, underscores and wildcards. */
  lemma SkillNameIs(name: string)
    ensures ValidSkill(name) <==>
            1 <= |name| <= 128 && forall i :: 0 <= i < |name| ==> IsSmall(name[i]) || name[i] in "-_*?"
  {
    assert "-_*?"[0] == '-' && "-_*?"[1] == '_' && "-_*?"[2] == '*' && "-_*?"[3] == '?';
    if forall i :: 0 <= i < |name| ==> IsSmall(name[i]) || name[i] in "-_*?" { AsciiBytes(name); }
  }

  function FromProjectRules<S>(rules: seq<Rule<S>>): seq<Rule<S>> {
    seq(|rules|, i requires 0 <= i < |rules| => rules[i].(fromProject := true))
  }

  /** The choices `rules` make: for each key, its first rule's state. */
  function Choices<S>(rules: seq<Rule<S>>): map<string, S> {
    if rules == [] then map[] else Choices(rules[1..])[rules[0].key := rules[0].state]
  }

  function RuleOf<S>(rules: seq<Rule<S>>, key: string): (r: Option<Rule<S>>)
    ensures r.Some? ==> r.value in rules && r.value.key == key
    ensures r.None? ==> forall rule :: rule in rules ==> rule.key != key
    ensures key in Choices(rules) <==> r.Some?
    ensures r.Some? ==> Choices(rules)[key] == r.value.state
  {
    if rules == [] then None else if rules[0].key == key then Some(rules[0]) else RuleOf(rules[1..], key)
  }

  ghost predicate OneRulePerKey<S>(rules: seq<Rule<S>>) {
    forall i, j :: 0 <= i < j < |rules| ==> rules[i].key != rules[j].key
  }

  lemma {:induction false} WithoutMembers<S>(rules: seq<Rule<S>>, key: string, r: Rule<S>)
    ensures r in Without(rules, key) <==> r in rules && r.key != key
  {
    if rules != [] {
      WithoutMembers(rules[1..], key, r);
      assert r in rules <==> r == rules[0] || r in rules[1..];
    }
  }

  lemma {:induction false} WithoutChoices<S>(rules: seq<Rule<S>>, key: string)
    ensures Choices(Without(rules, key)) == Choices(rules) - {key}
  {
    if rules != [] {
      var rest, first := rules[1..], rules[0];
      WithoutChoices(rest, key);
      if first.key == key {
        assert Choices(rest)[key := first.state] - {key} == Choices(rest) - {key};
      } else {
        assert Without(rules, key)[1..] == Without(rest, key);
        assert (Choices(rest) - {key})[first.key := first.state] == Choices(rest)[first.key := first.state] - {key};
      }
    }
  }

  lemma {:induction false} WithoutKeepsOnePerKey<S>(rules: seq<Rule<S>>, key: string)
    requires OneRulePerKey(rules)
    ensures OneRulePerKey(Without(rules, key))
  {
    if rules != [] {
      WithoutKeepsOnePerKey(rules[1..], key);
      var rest, all := Without(rules[1..], key), Without(rules, key);
      if rules[0].key != key {
        forall j | 0 < j < |all|
          ensures all[j].key != rules[0].key
        {
          WithoutMembers(rules[1..], key, rest[j - 1]);
          assert all[j] == rest[j - 1] && rest[j - 1] in rules[1..];
        }
      }
    }
  }

  lemma {:induction false} WithoutTwice<S>(rules: seq<Rule<S>>, key: string)
    ensures Without(Without(rules, key), key) == Without(rules, key)
  {
    if rules != [] {
      WithoutTwice(rules[1..], key);
      if rules[0].key != key {
        assert Without(rules, key)[1..] == Without(rules[1..], key);
      }
    }
  }

  lemma {:induction false} ChoicesAppend<S>(rules: seq<Rule<S>>, r: Rule<S>)
    requires forall i :: 0 <= i < |rules| ==> rules[i].key != r.key
    ensures Choices(rules + [r]) == Choices(rules)[r.key := r.state]
  {
    if rules == [] {
      assert [] + [r] == [r];
    } else {
      assert (rules + [r])[1..] == rules[1..] + [r];
      ChoicesAppend(rules[1..], r);
    }
  }

  /** Choosing sets its key's choice and leaves the others alone. */
  lemma WithMakesOneChoice<S>(rules: seq<Rule<S>>, key: string, state: Option<S>, below: S)
    ensures Choices(With(rules, key, state, below)) ==
            if state.Some? && state.value != below then Choices(rules)[key := state.value] else Choices(rules) - {key}
    ensures forall r: Rule<S> :: r.key != key ==> (r in With(rules, key, state, below) <==> r in rules)
  {
    WithoutChoices(rules, key);
    forall r: Rule<S>
      ensures r in Without(rules, key) <==> r in rules && r.key != key
    {
      WithoutMembers(rules, key, r);
    }
    var kept := Without(rules, key);
    if state.Some? && state.value != below {
      forall i | 0 <= i < |kept|
        ensures kept[i].key != key
      {
        WithoutMembers(rules, key, kept[i]);
      }
      ChoicesAppend(kept, Rule(key, state.value, false));
      assert (Choices(rules) - {key})[key := state.value] == Choices(rules)[key := state.value];
    } else {
      assert With(rules, key, state, below) == kept;
    }
  }

  /** It leaves at most one rule for its key, and one per key where there was one. */
  lemma WithKeepsOneRule<S>(rules: seq<Rule<S>>, key: string, state: Option<S>, below: S)
    ensures var after := With(rules, key, state, below);
            forall i, j :: 0 <= i < j < |after| ==> !(after[i].key == key && after[j].key == key)
    ensures OneRulePerKey(rules) ==> OneRulePerKey(With(rules, key, state, below))
  {
    var kept, after := Without(rules, key), With(rules, key, state, below);
    if OneRulePerKey(rules) { WithoutKeepsOnePerKey(rules, key); }
    forall i | 0 <= i < |kept|
      ensures after[i] == kept[i] && after[i].key != key
    {
      WithoutMembers(rules, key, kept[i]);
    }
  }

  /** The last choice made for a key is the one that counts. */
  lemma LastChoiceWins<S>(rules: seq<Rule<S>>, key: string, first: Option<S>, below: S, last: Option<S>, belowLast: S)
    ensures With(With(rules, key, first, below), key, last, belowLast) == With(rules, key, last, belowLast)
  {
    WithoutTwice(rules, key);
    if first.Some? && first.value != below {
      WithoutSnoc(Without(rules, key), Rule(key, first.value, false));
    } else {
      assert With(rules, key, first, below) == Without(rules, key);
    }
  }

  lemma {:induction false} WithoutSnoc<S>(rules: seq<Rule<S>>, r: Rule<S>)
    ensures Without(rules + [r], r.key) == Without(rules, r.key)
  {
    if rules == [] {
      assert [] + [r] == [r];
    } else {
      assert (rules + [r])[1..] == rules[1..] + [r];
      WithoutSnoc(rules[1..], r);
    }
  }

  /** A project's copy makes the same choices. */
  lemma {:induction false} FromProjectKeepsChoices<S>(rules: seq<Rule<S>>)
    ensures Choices(FromProjectRules(rules)) == Choices(rules)
    ensures forall r :: r in FromProjectRules(rules) ==> r.fromProject
  {
    if rules != [] {
      FromProjectKeepsChoices(rules[1..]);
      assert FromProjectRules(rules)[1..] == FromProjectRules(rules[1..]);
    }
  }

  predicate AllFromProject(before: ToolExposure, after: ToolExposure) {
    && before.groups == [] && before.skills == []
    && (forall i :: 0 <= i < |after.groups| ==> after.groups[i].fromProject)
    && (forall i :: 0 <= i < |after.skills| ==> after.skills[i].fromProject)
  }

  /** One group chosen: the other groups and all skills stay as they were. */
  method WithGroup(before: ToolExposure, selector: string, state: Option<GroupState>, below: GroupState)
    returns (e: ToolExposure)
    ensures e == before.(groups := With(before.groups, selector, state, below))
    ensures Choices(e.groups) ==
            if state.Some? && state.value != below then Choices(before.groups)[selector := state.value]
            else Choices(before.groups) - {selector}
    ensures OneRulePerKey(before.groups) ==> OneRulePerKey(e.groups)
  {
    WithMakesOneChoice(before.groups, selector, state, below);
    WithKeepsOneRule(before.groups, selector, state, below);
    e := before.(groups := Without(before.groups, selector));
    if state.Some? && state.value != below {
      e := e.(groups := e.groups + [Rule(selector, state.value, false)]);
    }
  }

  /** As `WithGroup`; a name that is no skill's can only lose its choice. */
  method WithSkill(before: ToolExposure, name: string, state: Option<SkillState>, below: SkillState)
    returns (e: ToolExposure)
    ensures e == before.(skills := With(before.skills, name, if ValidSkill(name) then state else None, below))
    ensures Choices(e.skills) ==
            if state.Some? && state.value != below && ValidSkill(name) then Choices(before.skills)[name := state.value]
            else Choices(before.skills) - {name}
    ensures OneRulePerKey(before.skills) ==> OneRulePerKey(e.skills)
  {
    WithMakesOneChoice(before.skills, name, if ValidSkill(name) then state else None, below);
    WithKeepsOneRule(before.skills, name, if ValidSkill(name) then state else None, below);
    e := before.(skills := Without(before.skills, name));
    if state.Some? && state.value != below {
      if ValidSkill(name) {
        e := e.(skills := e.skills + [Rule(name, state.value, false)]);
      }
    }
  }

  /** The copy a session of the project gets: the same choices, every rule marked. */
  method FromProject(e: ToolExposure) returns (copy: ToolExposure)
    ensures copy.groups == FromProjectRules(e.groups) && copy.skills == FromProjectRules(e.skills)
    ensures Choices(copy.groups) == Choices(e.groups) && Choices(copy.skills) == Choices(e.skills)
    ensures AllFromProject(ToolExposure([], []), copy)
  {
    copy := e;
    for i := 0 to |copy.groups|
      invariant |copy.groups| == |e.groups| && copy.skills == e.skills
      invariant forall k :: 0 <= k < |e.groups| ==>
        copy.groups[k] == if k < i then e.groups[k].(fromProject := true) else e.groups[k]
    {
      copy := copy.(groups := copy.groups[i := copy.groups[i].(fromProject := true)]);
    }
    for i := 0 to |copy.skills|
      invariant |copy.skills| == |e.skills| && copy.groups == FromProjectRules(e.groups)
      invariant forall k :: 0 <= k < |e.skills| ==>
        copy.skills[k] == if k < i then e.skills[k].(fromProject := true) else e.skills[k]
    {
      copy := copy.(skills := copy.skills[i := copy.skills[i].(fromProject := true)]);
    }
    FromProjectKeepsChoices(e.groups);
    FromProjectKeepsChoices(e.skills);
  }

  // ------------------------------------------------------------ what changed

  datatype Change<S> = Set(key: string, state: S) | Reset(key: string)

  /** The rules of `after` that `before` does not have with the same state. */
  function SetsOf<S(==)>(before: seq<Rule<S>>, after: seq<Rule<S>>): seq<Change<S>> {
    if after == [] then []
    else
      var init, last := after[..|after| - 1], after[|after| - 1];
      SetsOf(before, init) +
      if RuleOf(before, last.key).Some? && RuleOf(before, last.key).value.state == last.state then []
      else [Set(last.key, last.state)]
  }

  /** The keys of `before` that `after` has no rule for. */
  function ResetsOf<S>(before: seq<Rule<S>>, after: seq<Rule<S>>): seq<Change<S>> {
    if before == [] then []
    else
      var init, last := before[..|before| - 1], before[|before| - 1];
      ResetsOf(init, after) + if RuleOf(after, last.key).Some? then [] else [Reset(last.key)]
  }

  function Changes<S(==)>(before: seq<Rule<S>>, after: seq<Rule<S>>): seq<Change<S>> {
    SetsOf(before, after) + ResetsOf(before, after)
  }

  /** The two loops of `change_text` over the rules of one kind. */
  method ListChanges<S(==)>(before: seq<Rule<S>>, after: seq<Rule<S>>) returns (parts: seq<Change<S>>)
    ensures parts == Changes(before, after)
  {
    parts := [];
    for i := 0 to |after|
      invariant parts == SetsOf(before, after[..i])
    {
      assert after[..i + 1][..i] == after[..i];
      var earlier := RuleOf(before, after[i].key);
      if earlier.None? || earlier.value.state != after[i].state {
        parts := parts + [Set(after[i].key, after[i].state)];
      }
    }
    assert after[..|after|] == after;
    for i := 0 to |before|
      invariant parts == SetsOf(before, after) + ResetsOf(before[..i], after)
    {
      assert before[..i + 1][..i] == before[..i];
      if RuleOf(after, before[i].key).None? {
        parts := parts + [Reset(before[i].key)];
      }
    }
    assert before[..|before|] == before;
  }

  /** A change applied to the choices made before. */
  function Applied<S>(choices: map<string, S>, c: Change<S>): map<string, S> {
    match c case Set(key, state) => choices[key := state] case Reset(key) => choices - {key}
  }

  function Replayed<S>(choices: map<string, S>, changes: seq<Change<S>>): map<string, S> {
    if changes == [] then choices
    else Applied(Replayed(choices, changes[..|changes| - 1]), changes[|changes| - 1])
  }

  lemma {:induction false} ReplayedAppend<S>(choices: map<string, S>, a: seq<Change<S>>, b: seq<Change<S>>)
    ensures Replayed(choices, a + b) == Replayed(Replayed(choices, a), b)
    decreases |b|
  {
    if b == [] {
      assert a + b == a;
    } else {
      assert (a + b)[..|a + b| - 1] == a + b[..|b| - 1];
      ReplayedAppend(choices, a, b[..|b| - 1]);
    }
  }

  lemma OneMoreReplayed<S>(choices: map<string, S>, changes: seq<Change<S>>, c: Change<S>)
    ensures Replayed(choices, changes + [c]) == Applied(Replayed(choices, changes), c)
  {
    assert (changes + [c])[..|changes|] == changes;
  }

  lemma LastIsNew<S>(after: seq<Rule<S>>)
    requires OneRulePerKey(after) && after != []
    ensures var init := after[..|after| - 1];
            OneRulePerKey(init) && forall i :: 0 <= i < |init| ==> init[i].key != after[|after| - 1].key
  {
  }

  lemma {:induction false} NoRuleNoChoice<S>(rules: seq<Rule<S>>, key: string)
    requires forall i :: 0 <= i < |rules| ==> rules[i].key != key
    ensures key !in Choices(rules)
  {
    if rules != [] { NoRuleNoChoice(rules[1..], key); }
  }

  lemma {:induction false} SetsReplay<S>(before: seq<Rule<S>>, after: seq<Rule<S>>)
    requires OneRulePerKey(after)
    ensures Replayed(Choices(before), SetsOf(before, after)) == Choices(before) + Choices(after)
    decreases |after|
  {
    if after == [] {
      assert Choices(before) + map[] == Choices(before);
    } else {
      var init, last := after[..|after| - 1], after[|after| - 1];
      LastIsNew(after);
      SetsReplay(before, init);
      ChoicesAppend(init, last);
      assert after == init + [last];
      SetReplays(before, init, last);
    }
  }

  lemma SetReplays<S>(before: seq<Rule<S>>, init: seq<Rule<S>>, last: Rule<S>)
    requires forall i :: 0 <= i < |init| ==> init[i].key != last.key
    requires Replayed(Choices(before), SetsOf(before, init)) == Choices(before) + Choices(init)
    ensures Replayed(Choices(before), SetsOf(before, init + [last])) ==
              Choices(before) + Choices(init)[last.key := last.state]
  {
    NoRuleNoChoice(init, last.key);
    SetsAppend(before, init, last);
    var kept := RuleOf(before, last.key);
    if kept.Some? && kept.value.state == last.state {
      SetAgain(Choices(before), Choices(init), last.key, last.state);
      hide Choices, SetsOf, RuleOf, Replayed, Applied;
      assert SetsOf(before, init) + [] == SetsOf(before, init);
    } else {
      hide Choices, SetsOf, RuleOf, Replayed, Applied;
      OneMoreReplayed(Choices(before), SetsOf(before, init), Set(last.key, last.state));
      AppliedSet(Choices(before) + Choices(init), last.key, last.state);
      SetOver(Choices(before), Choices(init), last.key, last.state);
    }
  }

  lemma SetAgain<S>(a: map<string, S>, b: map<string, S>, key: string, state: S)
    requires key in a && a[key] == state && key !in b
    ensures a + b == a + b[key := state]
  {
  }

  lemma SetOver<S>(a: map<string, S>, b: map<string, S>, key: string, state: S)
    ensures (a + b)[key := state] == a + b[key := state]
  {
  }

  lemma AppliedSet<S>(choices: map<string, S>, key: string, state: S)
    ensures Applied(choices, Set(key, state)) == choices[key := state]
  {
  }

  lemma SetsAppend<S>(before: seq<Rule<S>>, init: seq<Rule<S>>, last: Rule<S>)
    ensures SetsOf(before, init + [last]) == SetsOf(before, init) +
              if RuleOf(before, last.key).Some? && RuleOf(before, last.key).value.state == last.state then []
              else [Set(last.key, last.state)]
  {
    assert (init + [last])[..|init|] == init;
  }

  /** `choices` without the keys of `before` that `after` has no choice for. */
  function Kept<S>(choices: map<string, S>, before: map<string, S>, after: map<string, S>): map<string, S> {
    map k | k in choices && !(k in before && k !in after) :: choices[k]
  }

  lemma {:induction false} ResetsReplay<S>(choices: map<string, S>, before: seq<Rule<S>>, after: seq<Rule<S>>)
    ensures Replayed(choices, ResetsOf(before, after)) == Kept(choices, Choices(before), Choices(after))
    decreases |before|
  {
    if before == [] {
      assert Kept(choices, map[], Choices(after)) == choices;
    } else {
      var init, last := before[..|before| - 1], before[|before| - 1];
      ResetsReplay(choices, init, after);
      assert before == init + [last];
      ResetReplays(choices, init, last, after);
    }
  }

  lemma ResetReplays<S>(choices: map<string, S>, init: seq<Rule<S>>, last: Rule<S>, after: seq<Rule<S>>)
    requires Replayed(choices, ResetsOf(init, after)) == Kept(choices, Choices(init), Choices(after))
    ensures Replayed(choices, ResetsOf(init + [last], after)) == Kept(choices, Choices(init + [last]), Choices(after))
  {
    ResetsAppend(init, last, after);
    ChoicesKeysAppend(init, last);
    var a, b, all, found := Choices(init), Choices(after), Choices(init + [last]), RuleOf(after, last.key);
    hide Choices, ResetsOf, RuleOf, Replayed;
    if found.Some? {
      assert ResetsOf(init, after) + [] == ResetsOf(init, after);
      assert Kept(choices, all, b) == Kept(choices, a, b);
    } else {
      OneMoreReplayed(choices, ResetsOf(init, after), Reset(last.key));
      assert Kept(choices, all, b) == Kept(choices, a, b) - {last.key};
    }
  }

  lemma ResetsAppend<S>(init: seq<Rule<S>>, last: Rule<S>, after: seq<Rule<S>>)
    ensures ResetsOf(init + [last], after) ==
            ResetsOf(init, after) + if RuleOf(after, last.key).Some? then [] else [Reset(last.key)]
  {
    assert (init + [last])[..|init|] == init;
  }

  lemma {:induction false} ChoicesKeysAppend<S>(rules: seq<Rule<S>>, r: Rule<S>)
    ensures Choices(rules + [r]).Keys == Choices(rules).Keys + {r.key}
  {
    if rules == [] {
      assert [] + [r] == [r];
    } else {
      assert (rules + [r])[1..] == rules[1..] + [r];
      ChoicesKeysAppend(rules[1..], r);
    }
  }

  /** Replaying the listed changes on the choices before gives the choices after. */
  lemma ChangesReplay<S>(before: seq<Rule<S>>, after: seq<Rule<S>>)
    requires OneRulePerKey(after)
    ensures Replayed(Choices(before), Changes(before, after)) == Choices(after)
  {
    var a, b := Choices(before), Choices(after);
    SetsReplay(before, after);
    ReplayedAppend(a, SetsOf(before, after), ResetsOf(before, after));
    ResetsReplay(a + b, before, after);
    hide Choices, SetsOf, ResetsOf, Replayed, Kept;
    OnlyTheLaterKept(a, b);
  }

  lemma OnlyTheLaterKept<S>(a: map<string, S>, b: map<string, S>)
    ensures Kept(a + b, a, b) == b
  {
  }

  lemma {:induction false} NothingSet<S>(before: seq<Rule<S>>, after: seq<Rule<S>>)
    requires OneRulePerKey(after) && Choices(before) == Choices(after)
    ensures Changes(before, after) == []
  {
    forall r | r in after
      ensures RuleOf(before, r.key).Some? && RuleOf(before, r.key).value.state == r.state
    {
      OnlyRuleOfKey(after, r);
      assert r.key in Choices(before);
    }
    forall r | r in before
      ensures r.key in Choices(after)
    {
      var found := RuleOf(before, r.key);
      assert found.Some?;
    }
    NoSets(before, after);
    NoResets(before, after);
  }

  lemma {:induction false} OnlyRuleOfKey<S>(rules: seq<Rule<S>>, r: Rule<S>)
    requires OneRulePerKey(rules) && r in rules
    ensures RuleOf(rules, r.key) == Some(r)
  {
    if rules[0] != r {
      var i :| 0 <= i < |rules| && rules[i] == r;
      assert rules[0].key != rules[i].key;
      OnlyRuleOfKey(rules[1..], r);
    }
  }

  lemma {:induction false} NoSets<S>(before: seq<Rule<S>>, after: seq<Rule<S>>)
    requires forall r :: r in after ==> RuleOf(before, r.key).Some? && RuleOf(before, r.key).value.state == r.state
    ensures SetsOf(before, after) == []
    decreases |after|
  {
    if after != [] {
      assert after[|after| - 1] in after;
      NoSets(before, after[..|after| - 1]);
    }
  }

  lemma {:induction false} NoResets<S>(before: seq<Rule<S>>, after: seq<Rule<S>>)
    requires forall r :: r in before ==> r.key in Choices(after)
    ensures ResetsOf(before, after) == []
    decreases |before|
  {
    if before != [] {
      assert before[|before| - 1] in before;
      NoResets(before[..|before| - 1], after);
    }
  }

  /** What is listed: the choices after that the ones before did not make, and the keys no longer chosen for. */
  lemma ChangesAre<S>(before: seq<Rule<S>>, after: seq<Rule<S>>, c: Change<S>)
    requires OneRulePerKey(after)
    ensures c in Changes(before, after) <==>
            match c
            case Set(key, state) =>
              key in Choices(after) && Choices(after)[key] == state
              && !(key in Choices(before) && Choices(before)[key] == state)
            case Reset(key) => key in Choices(before) && key !in Choices(after)
  {
    SetsAre(before, after, c);
    ResetsAre(before, after, c);
    if c.Set? {
      forall r | r in after
        ensures RuleOf(after, r.key) == Some(r)
      {
        OnlyRuleOfKey(after, r);
      }
      var kept := RuleOf(before, c.key);
      var now := RuleOf(after, c.key);
    } else {
      var was := RuleOf(before, c.key);
      var now := RuleOf(after, c.key);
    }
    hide SetsOf, ResetsOf, Choices;
  }

  lemma {:induction false} SetsAre<S>(before: seq<Rule<S>>, after: seq<Rule<S>>, c: Change<S>)
    ensures c in SetsOf(before, after) <==>
            c.Set? && exists r :: r in after && r.key == c.key && r.state == c.state
                                  && !(RuleOf(before, r.key).Some? && RuleOf(before, r.key).value.state == r.state)
    decreases |after|
  {
    if after != [] {
      var init, last := after[..|after| - 1], after[|after| - 1];
      SetsAre(before, init, c);
      hide RuleOf;
      assert forall r :: r in after <==> r in init || r == last;
    }
  }

  lemma {:induction false} ResetsAre<S>(before: seq<Rule<S>>, after: seq<Rule<S>>, c: Change<S>)
    ensures c in ResetsOf(before, after) <==>
            c.Reset? && RuleOf(after, c.key).None? && exists r :: r in before && r.key == c.key
    decreases |before|
  {
    if before != [] {
      var init, last := before[..|before| - 1], before[|before| - 1];
      ResetsAre(init, after, c);
      hide RuleOf;
      assert forall r :: r in before <==> r in init || r == last;
    }
  }

  // ----------------------------------------------------------------- the row

  function GroupWord(s: GroupState): string {
    match s case On => "on" case Deferred => "deferred" case Off => "off"
  }

  function GroupText(c: Change<GroupState>): string {
    match c case Set(key, state) => key + " " + GroupWord(state) case Reset(key) => key + " reset"
  }

  function SkillText(c: Change<SkillState>): string {
    match c
    case Set(key, state) => "skill " + key + (if state == SkillOn then " on" else " off")
    case Reset(key) => "skill " + key + " reset"
  }

  function Texts(groups: seq<Change<GroupState>>, skills: seq<Change<SkillState>>): (r: seq<string>)
    ensures |r| == |groups| + |skills|
  {
    seq(|groups|, i requires 0 <= i < |groups| => GroupText(groups[i]))
    + seq(|skills|, i requires 0 <= i < |skills| => SkillText(skills[i]))
  }

  /** How a row words each change: groups by their selector, skills as such. */
  lemma TextsSay(groups: seq<Change<GroupState>>, skills: seq<Change<SkillState>>)
    ensures forall i :: 0 <= i < |groups| ==>
              var c, text := groups[i], Texts(groups, skills)[i];
              && (c.Reset? ==> text == c.key + " reset")
              && (c.Set? && c.state == On ==> text == c.key + " on")
              && (c.Set? && c.state == Deferred ==> text == c.key + " deferred")
              && (c.Set? && c.state == Off ==> text == c.key + " off")
    ensures forall i :: 0 <= i < |skills| ==>
              var c, text := skills[i], Texts(groups, skills)[|groups| + i];
              && (c.Reset? ==> text == "skill " + c.key + " reset")
              && (c.Set? && c.state == SkillOn ==> text == "skill " + c.key + " on")
              && (c.Set? && c.state == SkillOff ==> text == "skill " + c.key + " off")
  {
  }

  /** The transcript's row for going from `before` to `after`, if there is anything to tell. */
  method ChangeText(before: ToolExposure, after: ToolExposure, origin: Option<string>) returns (r: Option<string>)
    ensures var parts := Texts(Changes(before.groups, after.groups), Changes(before.skills, after.skills));
            r == if parts == [] then None
                 else
                   var marked := (forall i :: 0 <= i < |after.groups| ==> after.groups[i].fromProject)
                                 && forall i :: 0 <= i < |after.skills| ==> after.skills[i].fromProject;
                   var who := if before == ToolExposure([], []) && marked then " from the project"
                             else if origin.Some? then " by " + origin.value else "";
                   Some("tool groups changed" + who + ": " + Join(parts, ", "))
    ensures OneRulePerKey(after.groups) && OneRulePerKey(after.skills) ==>
              (r.None? <==>
               Choices(before.groups) == Choices(after.groups) && Choices(before.skills) == Choices(after.skills))
  {
    var groups := ListChanges(before.groups, after.groups);
    var skills := ListChanges(before.skills, after.skills);
    ghost var distinct := OneRulePerKey(after.groups) && OneRulePerKey(after.skills);
    if distinct {
      NoChangesIffSameChoices(before.groups, after.groups);
      NoChangesIffSameChoices(before.skills, after.skills);
    }
    var parts := Texts(groups, skills);
    if parts == [] {
      return None;
    }
    var who := if AllFromProject(before, after) then " from the project"
              else if origin.Some? then " by " + origin.value else "";
    return Some("tool groups changed" + who + ": " + Join(parts, ", "));
  }

  /** Nothing is listed exactly when both sides make the same choices. */
  lemma NoChangesIffSameChoices<S>(before: seq<Rule<S>>, after: seq<Rule<S>>)
    requires OneRulePerKey(after)
    ensures Changes(before, after) == [] <==> Choices(before) == Choices(after)
  {
    ChangesReplay(before, after);
    if Choices(before) == Choices(after) { NothingSet(before, after); }
  }
}
