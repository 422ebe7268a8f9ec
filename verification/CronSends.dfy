/**
  What the form sends, said by its text fields: the job a new form creates and the
  one an edit leaves, member by member (`create_params` and `update_params` in
  cron.rs).
 */
module CronSends {
  import opened Results
  import opened Text
  import opened Identities
  import opened CronForms
  import opened CronEdits

  // -------------------------------------------------------------- text fields

  /** `t` names the pin's model, alone or with its variant in brackets; `[base]` is no variant. */
  predicate NamesPin(t: string, pin: ModelSelection) {
    match pin.variant
    case None => t == pin.model || t == pin.model + "[base]"
    case Some(variant) => t == pin.model + "[" + variant + "]"
  }

  /** The pins a text is taken for are the valid ones it names. */
  lemma PinIs(text: string, pin: ModelSelection)
    ensures ParseModelPin(text) == Ok(Some(pin)) <==> ValidPin(pin) && NamesPin(Trim(text), pin)
  {
    var t := Trim(text);
    hide Trim, ValidModelKey, ValidVariantId, IndexOf;
    if ParseModelPin(text) == Ok(Some(pin)) {
      SplitNames(t);
    }
    if ValidPin(pin) && NamesPin(t, pin) {
      ModelKeyShape(pin.model);
      if pin.variant.Some? { VariantIsNotBase(pin.variant.value); }
      NamedSplits(t, pin);
    }
  }

  lemma SplitNames(t: string)
    ensures var (model, variant) := SplitPin(t);
            NamesPin(t, ModelSelection(model, variant))
  {
    if t != "" && t[|t| - 1] == ']' {
      var rest := t[..|t| - 1];
      var open := IndexOf(rest, '[');
      if open < |rest| {
        assert t == rest[..open] + "[" + rest[open + 1..] + "]";
        assert rest[..open] + "[" + "base" + "]" == rest[..open] + "[base]";
      }
    }
  }

  lemma NamedSplits(t: string, pin: ModelSelection)
    requires NamesPin(t, pin) && pin.variant != Some("base")
    requires pin.model != "" && Lacks(pin.model, '[') && Lacks(pin.model, ']')
    ensures SplitPin(t) == (pin.model, pin.variant) && t != ""
  {
    if t == pin.model {
      assert t[|t| - 1] != ']';
    } else {
      var variant := if pin.variant.Some? then pin.variant.value else "base";
      assert t == pin.model + "[" + variant + "]";
      BracketsSplit(pin.model, variant);
    }
  }

  lemma BracketsSplit(model: string, variant: string)
    requires Lacks(model, '[')
    ensures SplitPin(model + "[" + variant + "]") == (model, if variant == "base" then None else Some(variant))
  {
    var t := model + "[" + variant + "]";
    var rest := t[..|t| - 1];
    assert rest == model + ['['] + variant;
    IndexOfAppend(model, '[', variant);
    hide IndexOf;
    assert rest[..|model|] == model && rest[|model| + 1..] == variant;
  }

  lemma NoPinIs(text: string)
    ensures ParseModelPin(text) == Ok(None) <==> Trim(text) == ""
  {
  }

  /** `text` is taken for `schedule`: a delay, a time, or else five fields. */
  ghost predicate WritesSchedule(clock: Clock, text: string, schedule: CronSchedule) {
    var t := Trim(text);
    match schedule
    case In(delay) => "in " <= t && delay == Trim(t[3..]) && delay != ""
    case At(at) => "at " <= t && clock.parse(Trim(t[3..])) == Some(at)
    case Cron(expression) =>
      !("in " <= t) && !("at " <= t)
      && exists words :: |words| == 5 && Spaces(t, words) && expression == Join(words, " ")
  }

  lemma ScheduleIs(clock: Clock, text: string, schedule: CronSchedule)
    ensures ParseSchedule(clock, text) == Ok(schedule) <==> WritesSchedule(clock, text, schedule)
  {
    var t := Trim(text);
    forall words
      ensures Words(t) == words <==> Spaces(t, words)
    {
      WordsAre(t, words);
    }
    hide Trim, Words, Spaces, Join;
    if schedule.Cron? && ParseSchedule(clock, text) == Ok(schedule) {
      assert Spaces(t, Words(t));
    }
  }

  /** `text` is taken for the limit `runs`: none when blank, no limit from 0 down. */
  ghost predicate WritesRuns(text: string, runs: Option<CronMaxRuns>) {
    match runs
    case None => Trim(text) == ""
    case Some(Unlimited) => exists i :: I64_MIN <= i <= 0 && WritesInt(Trim(text), i)
    case Some(Count(n)) => 0 < n <= U32_MAX && WritesInt(Trim(text), n)
  }

  lemma RunsAre(text: string, runs: Option<CronMaxRuns>)
    ensures ParseMaxRuns(text) == Ok(runs) <==> WritesRuns(text, runs)
  {
    var t := Trim(text);
    NothingIsNoNumber();
    if ParseI64(t).Some? { I64Reads(t, ParseI64(t).value); }
    hide Trim, ParseI64, WritesInt;
    match runs
    case None =>
    case Some(Count(n)) => I64Reads(t, n);
    case Some(Unlimited) =>
      if i :| I64_MIN <= i <= 0 && WritesInt(t, i) { I64Reads(t, i); }
  }

  lemma NothingIsNoNumber()
    ensures ParseI64("") == None
  {
  }

  // --------------------------------------------------------------- a new job

  /** The template of a new session's job: the form's own, with the agent and the pin that were typed. */
  predicate TypedTemplate(draft: CronDraft, template: CronTemplate, typed: CronTemplate) {
    && typed.rest == template.rest
    && (if Trim(draft.agent) == "" then typed.agent == template.agent
        else typed.agent == Trim(draft.agent) && ValidAgentId(typed.agent))
    && (match typed.model
        case None => Trim(draft.model) == ""
        case Some(pin) => ValidPin(pin) && NamesPin(Trim(draft.model), pin))
  }

  predicate TypedTarget(draft: CronDraft, target: CronTarget) {
    match draft.target
    case DraftSession(session, true) => target == Subagent(session)
    case DraftSession(session, false) => target == Session(session)
    case DraftNew(template) => target.New? && TypedTemplate(draft, template, target.template)
  }

  lemma TargetIs(draft: CronDraft, target: CronTarget)
    ensures ResolvedTarget(draft) == Ok(target) <==> TypedTarget(draft, target)
  {
    if draft.target.DraftNew? && target.New? {
      NoPinIs(draft.model);
      if target.template.model.Some? { PinIs(draft.model, target.template.model.value); }
      hide Trim, ParseModelPin, ValidAgentId, ValidPin, NamesPin;
      TemplateIs(draft, target.template);
    }
  }

  lemma TemplateIs(draft: CronDraft, typed: CronTemplate)
    requires draft.target.DraftNew?
    requires ParseModelPin(draft.model) == Ok(typed.model) <==>
              match typed.model
              case None => Trim(draft.model) == ""
              case Some(pin) => ValidPin(pin) && NamesPin(Trim(draft.model), pin)
    ensures ResolvedTarget(draft) == Ok(New(typed)) <==> TypedTemplate(draft, draft.target.template, typed)
  {
    hide Trim, ParseModelPin, ValidAgentId, ValidPin, NamesPin;
  }

  /** `params` is what the form says, each member by its own fields. */
  ghost predicate Typed(clock: Clock, draft: CronDraft, params: CreateParams) {
    && params.name == (if Trim(draft.name) == "" then None else Some(Trim(draft.name)))
    && Trim(draft.prompt) != "" && params.prompt == TrimEnd(draft.prompt)
    && WritesSchedule(clock, draft.schedule, params.schedule)
    && (if params.schedule.Cron? then WritesRuns(draft.maxRuns, params.maxRuns) else params.maxRuns == None)
    && TypedTarget(draft, params.target)
    && (if draft.target.DraftNew?
        then params.delivery == None && params.permissionMode == draft.permissionMode
        else params.delivery == Some(draft.delivery) && params.permissionMode == None)
  }

  /** The form creates exactly the job its fields say; it cannot be sent when they say none. */
  lemma CreateIs(clock: Clock, draft: CronDraft, params: CreateParams)
    ensures Create(clock, draft) == Ok(params) <==> Typed(clock, draft, params)
  {
    ScheduleIs(clock, draft.schedule, params.schedule);
    RunsAre(draft.maxRuns, params.maxRuns);
    TargetIs(draft, params.target);
    hide Trim, TrimEnd, ParseSchedule, ParseMaxRuns, ResolvedTarget, WritesSchedule, WritesRuns, TypedTarget;
  }

  // -------------------------------------------------------------- an edited job

  predicate SameLimit(a: CronMaxRuns, b: CronMaxRuns) {
    a == b || (a in {Unlimited, Count(0)} && b in {Unlimited, Count(0)})
  }

  /**
    `after` is `job` as the form says it: a name, a schedule or a limit whose text is
    as the form was filled with stays, blanks around it aside, and so does what the
    form does not set.
   */
  ghost predicate Says(clock: Clock, draft: CronDraft, job: CronJob, typed: CreateParams, after: CronJob) {
    && after.id == job.id
    && after.name == (if Trim(draft.name) == (if job.name.Some? then Trim(job.name.value) else "")
                      then job.name else typed.name)
    && after.prompt == typed.prompt
    && after.schedule == (if Trim(draft.schedule) == Trim(ScheduleText(clock, job.schedule))
                          then job.schedule else typed.schedule)
    && (if typed.maxRuns.Some? then SameLimit(after.maxRuns, typed.maxRuns.value) else after.maxRuns == job.maxRuns)
    && after.target == typed.target
    && after.delivery == (if typed.delivery.Some? then typed.delivery else job.delivery)
    && after.permissionMode == (if draft.target.DraftNew? then draft.permissionMode else job.permissionMode)
  }

  /** An edit leaves the job the form says: each member as a new job would have it, or as it was. */
  lemma EditIs(clock: Clock, draft: CronDraft, job: CronJob)
    requires Faithful(clock) && ValidJob(job) && Update(clock, draft, job).Ok?
    ensures Create(clock, draft).Ok?
    ensures var typed := Create(clock, draft).value;
            Typed(clock, draft, typed) &&
            Says(clock, draft, job, typed, Applied(job, Update(clock, draft, job).value))
  {
    UpdateSendableIffCreate(clock, draft, job);
    CreateIs(clock, draft, Create(clock, draft).value);
    AppliedIs(clock, draft, job);
    MembersOf(clock, draft);
    LimitAfter(clock, draft, job, ParseSchedule(clock, draft.schedule).value);
    EmptyIsBlank();
    hide Trim, ParseSchedule, ResolvedTarget, Typed, UpdatedRuns, SameLimit, MaxRunsFor, ScheduleText, Create, Update,
         Applied, CheckedPrompt;
  }

  /** The members of the edited job, as far as the form could be read. */
  lemma AppliedIs(clock: Clock, draft: CronDraft, job: CronJob)
    requires Update(clock, draft, job).Ok?
    ensures ParseSchedule(clock, draft.schedule).Ok? && CheckedPrompt(draft).Ok? && ResolvedTarget(draft).Ok?
    ensures var schedule := ParseSchedule(clock, draft.schedule).value;
            var after := Applied(job, Update(clock, draft, job).value);
            && after.id == job.id
            && after.name == (if Trim(draft.name) == Trim(if job.name.Some? then job.name.value else "") then job.name
                              else CheckedName(draft))
            && after.prompt == CheckedPrompt(draft).value
            && after.schedule == (if Trim(draft.schedule) == Trim(ScheduleText(clock, job.schedule)) then job.schedule
                                  else schedule)
            && UpdatedRuns(clock, draft, job, schedule).Ok?
            && after.maxRuns == OrKept(UpdatedRuns(clock, draft, job, schedule).value, job.maxRuns)
            && after.target == ResolvedTarget(draft).value
            && after.delivery == (if draft.target.DraftNew? then job.delivery else Some(draft.delivery))
            && after.permissionMode == (if draft.target.DraftNew? then draft.permissionMode else job.permissionMode)
  {
    hide Trim, ParseSchedule, ResolvedTarget, CheckedPrompt, CheckedName, UpdatedRuns, ScheduleText;
  }

  lemma MembersOf(clock: Clock, draft: CronDraft)
    requires Create(clock, draft).Ok?
    ensures ParseSchedule(clock, draft.schedule).Ok? && CheckedPrompt(draft).Ok? && ResolvedTarget(draft).Ok?
    ensures var schedule, created := ParseSchedule(clock, draft.schedule).value, Create(clock, draft).value;
            && created.name == CheckedName(draft) && created.prompt == CheckedPrompt(draft).value
            && created.schedule == schedule && MaxRunsFor(schedule, draft.maxRuns) == Ok(created.maxRuns)
            && created.target == ResolvedTarget(draft).value
            && created.delivery == (if draft.target.DraftNew? then None else Some(draft.delivery))
  {
    hide Trim, ParseSchedule, ResolvedTarget, CheckedPrompt, CheckedName, MaxRunsFor;
  }

  lemma EmptyIsBlank()
    ensures Trim("") == ""
  {
  }

  lemma LimitAfter(clock: Clock, draft: CronDraft, job: CronJob, schedule: CronSchedule)
    requires Faithful(clock) && ValidJob(job) && ParseSchedule(clock, draft.schedule) == Ok(schedule)
    requires UpdatedRuns(clock, draft, job, schedule).Ok? && MaxRunsFor(schedule, draft.maxRuns).Ok?
    ensures var after := OrKept(UpdatedRuns(clock, draft, job, schedule).value, job.maxRuns);
            var typed := MaxRunsFor(schedule, draft.maxRuns).value;
            if typed.Some? then SameLimit(after, typed.value) else after == job.maxRuns
  {
    if schedule.Cron? && !ScheduleChanged(clock, draft, job) {
      SameTextSameSchedule(clock, draft.schedule, ScheduleText(clock, job.schedule));
      OneShotStaysOneShot(clock, job.schedule);
      RunsRoundTrip(job.maxRuns);
      if Trim(draft.maxRuns) == Trim(OfJob(clock, job).maxRuns) {
        SameTextSameRuns(draft.maxRuns, OfJob(clock, job).maxRuns);
      }
    }
    hide Trim, ParseSchedule, ParseMaxRuns, ScheduleText, PrintInt, ScheduleChanged;
  }

  /** Only what is not so yet is sent. */
  lemma EditSendsWhatChanges(clock: Clock, draft: CronDraft, job: CronJob)
    requires Faithful(clock) && ValidJob(job) && Update(clock, draft, job).Ok?
    ensures var params := Update(clock, draft, job).value;
            var after := Applied(job, params);
            && (params.prompt.Some? <==> after.prompt != job.prompt)
            && (params.target.Some? <==> after.target != job.target)
            && (params.delivery.Some? <==> after.delivery != job.delivery)
            && (params.permissionMode.Some? <==> after.permissionMode != job.permissionMode)
            && (after.name != job.name ==> params.name.Some?)
            && (params.schedule.Some? <==> Trim(draft.schedule) != Trim(ScheduleText(clock, job.schedule)))
            && (params.maxRuns.Some? && params.schedule.None? ==> after.maxRuns != job.maxRuns)
  {
    hide Trim, TrimEnd, ParseSchedule, ParseMaxRuns, ResolvedTarget, CheckedName, CheckedPrompt, ScheduleText;
  }

  /** A form opened on a job creates that job again, with the default delivery if it had none. */
  lemma OpenedFormCreatesTheJob(clock: Clock, job: CronJob)
    requires Faithful(clock) && ValidJob(job) && Create(clock, OfJob(clock, job)).Ok?
    ensures !job.target.New? ==> OfJob(clock, job).agent == OfJob(clock, job).model == ""
    ensures !job.schedule.Cron? ==> OfJob(clock, job).maxRuns == ""
    ensures var created := Create(clock, OfJob(clock, job)).value;
            && created.name == (if job.name.Some? && Trim(job.name.value) != "" then Some(Trim(job.name.value))
                                else None)
            && created.prompt == TrimEnd(job.prompt)
            && (created.maxRuns.Some? ==> SameLimit(created.maxRuns.value, job.maxRuns))
            && created.target == job.target
            && (if job.target.New? then created.delivery == None && created.permissionMode == job.permissionMode
                else created.permissionMode == None
                     && created.delivery == Some(if job.delivery.Some? then job.delivery.value else Queue))
  {
    OpenedTarget(clock, job);
    RunsRoundTrip(job.maxRuns);
    BlankRuns("");
    EmptyIsBlank();
    hide ParseSchedule, Trim, TrimEnd, ScheduleText, ParseMaxRuns, ResolvedTarget, PrintInt;
  }

  lemma OpenedTarget(clock: Clock, job: CronJob)
    requires ValidJob(job)
    ensures ResolvedTarget(OfJob(clock, job)) == Ok(job.target)
  {
    hide ParseSchedule, Trim, TrimEnd, ScheduleText, ParseModelPin, ModelPinText, ValidAgentId, ParseMaxRuns;
    if job.target.New? {
      AgentIdTrimmed(job.target.template.agent);
      if job.target.template.model.Some? {
        ModelPinRoundTrip(job.target.template.model.value);
      } else {
        NoPin();
      }
    }
  }
}
