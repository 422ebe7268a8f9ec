/**
  The cron job form: its text fields, what `crons.create` takes, and what an edit
  sends (`parse_schedule`, `parse_max_runs`, `parse_model_pin` and `CronDraft` in
  cron.rs).
 */
module CronForms {
  import opened Results
  import opened Text
  import opened Identities

  datatype Timestamp = Timestamp(nanoseconds: int)

  datatype CronSchedule = Cron(expression: string) | In(delay: string) | At(at: Timestamp)

  datatype CronMaxRuns = Count(count: nat) | Unlimited

  datatype ModelSelection = ModelSelection(model: string, variant: Option<string>)

  /** What a template holds besides its agent and model pin; the form keeps it. */
  datatype TemplateRest = TemplateRest(
    preset: Option<string>, permissionRules: seq<string>, runtimes: Option<seq<string>>,
    isGlobal: bool, cwd: Option<string>, project: Option<string>, acpRuntime: Option<string>)

  datatype CronTemplate = CronTemplate(agent: string, model: Option<ModelSelection>, rest: TemplateRest)

  datatype CronTarget = Session(session: string) | Subagent(session: string) | New(template: CronTemplate)

  datatype Delivery = Steer | Queue

  datatype PermissionMode = PermissionMode(name: string)

  datatype CronJob = CronJob(
    id: string, name: Option<string>, prompt: string, schedule: CronSchedule, maxRuns: CronMaxRuns,
    target: CronTarget, delivery: Option<Delivery>, permissionMode: Option<PermissionMode>)

  datatype CronDraftTarget = DraftSession(session: string, subagent: bool) | DraftNew(template: CronTemplate)

  /** The form's fields, most of them still text. */
  datatype CronDraft = CronDraft(
    name: string, prompt: string, schedule: string, maxRuns: string, target: CronDraftTarget,
    delivery: Delivery, permissionMode: Option<PermissionMode>, model: string, agent: string)

  datatype CreateParams = CreateParams(
    name: Option<string>, prompt: string, schedule: CronSchedule, maxRuns: Option<CronMaxRuns>,
    target: CronTarget, delivery: Option<Delivery>, permissionMode: Option<PermissionMode>)

  /** Only the members present change; `Some(None)` clears an optional one. */
  datatype UpdateParams = UpdateParams(
    id: string, name: Option<Option<string>>, prompt: Option<string>, schedule: Option<CronSchedule>,
    maxRuns: Option<CronMaxRuns>, target: Option<CronTarget>, delivery: Option<Delivery>,
    permissionMode: Option<Option<PermissionMode>>)

  /** RFC 3339 times, as the time library prints and reads them. */
  datatype Clock = Clock(format: Timestamp -> string, parse: string -> Option<Timestamp>)

  ghost predicate Faithful(clock: Clock) {
    forall t :: clock.format(t) != "" && Trimmed(clock.format(t)) && clock.parse(clock.format(t)) == Some(t)
  }

  /** Such clocks exist: one prints and reads a time's count of nanoseconds. */
  lemma NanosecondClock() returns (clock: Clock)
    ensures Faithful(clock)
  {
    hide PrintInt, ParseNanoseconds, Trimmed;
    clock := Clock((t: Timestamp) => PrintInt(t.nanoseconds), (text: string) => ParseNanoseconds(text));
    forall t: Timestamp
      ensures PrintInt(t.nanoseconds) != "" && Trimmed(PrintInt(t.nanoseconds))
      ensures ParseNanoseconds(PrintInt(t.nanoseconds)) == Some(t)
    {
      if t.nanoseconds >= 0 { CountReads(t.nanoseconds); } else { NegativeReads(0 - t.nanoseconds); }
    }
  }

  lemma CountReads(n: nat)
    ensures PrintInt(n) != "" && Trimmed(PrintInt(n)) && ParseNanoseconds(PrintInt(n)) == Some(Timestamp(n))
  {
    DecimalValue(n);
    hide Decimal, DigitsValue;
    assert IsDigit(Decimal(n)[0]);
  }

  lemma NegativeReads(n: nat)
    requires n > 0
    ensures var text := PrintInt(0 - n);
            text != "" && Trimmed(text) && ParseNanoseconds(text) == Some(Timestamp(0 - n))
  {
    DecimalValue(n);
    hide Decimal, DigitsValue;
    assert PrintInt(0 - n)[1..] == Decimal(n);
  }

  function ParseNanoseconds(text: string): Option<Timestamp> {
    if text == "" then None
    else if text[0] == '-' then
      if AllDigits(text[1..]) then Some(Timestamp(0 - DigitsValue(text[1..]))) else None
    else if AllDigits(text) then Some(Timestamp(DigitsValue(text)))
    else None
  }

  // ------------------------------------------------------------- identities

  /** What the types of the protocol guarantee. */
  predicate ValidPin(pin: ModelSelection) {
    ValidModelKey(pin.model) && (pin.variant.Some? ==> ValidVariantId(pin.variant.value))
  }

  predicate ValidTemplate(t: CronTemplate) {
    ValidAgentId(t.agent) && (t.model.Some? ==> ValidPin(t.model.value))
  }

  predicate ValidJob(job: CronJob) {
    && (job.maxRuns.Count? ==> job.maxRuns.count <= U32_MAX)
    && (job.target.New? ==> ValidTemplate(job.target.template))
  }

  predicate ValidDraft(draft: CronDraft) {
    draft.target.DraftNew? ==> ValidTemplate(draft.target.template)
  }

  // -------------------------------------------------------------- text fields

  function ParseSchedule(clock: Clock, text: string): Result<CronSchedule, string> {
    var t := Trim(text);
    if "in " <= t then
      var delay := Trim(t[3..]);
      if delay == "" then Err("a delay needs a length, such as `in 20m`") else Ok(In(delay))
    else if "at " <= t then
      match clock.parse(Trim(t[3..]))
      case Some(at) => Ok(At(at))
      case None => Err("a time needs RFC 3339, such as `at 2026-10-23T03:00:00Z`")
    else
      var fields := Words(t);
      if |fields| == 5 then Ok(Cron(Join(fields, " ")))
      else Err("a schedule is five cron fields (`0 3 * * *`) or a delay (`in 20m`)")
  }

  function ScheduleText(clock: Clock, schedule: CronSchedule): string {
    match schedule
    case Cron(expression) => expression
    case In(delay) => "in " + delay
    case At(at) => "at " + clock.format(at)
  }

  /** 0 or less is no limit; `None` past the largest count. */
  function FromCount(count: int): Option<CronMaxRuns> {
    if count <= 0 then Some(Unlimited) else if count <= U32_MAX then Some(Count(count)) else None
  }

  function CountOf(runs: CronMaxRuns): int {
    match runs case Count(n) => n case Unlimited => 0
  }

  function ParseMaxRuns(text: string): Result<Option<CronMaxRuns>, string> {
    var t := Trim(text);
    if t == "" then Ok(None)
    else
      var runs := match ParseI64(t) case Some(n) => FromCount(n) case None => None;
      match runs
      case Some(r) => Ok(Some(r))
      case None => Err("runs are a whole number; 0 or less runs without a limit")
  }

  /** The model and variant a pin's text names, before they are checked. */
  function SplitPin(t: string): (string, Option<string>) {
    if t == "" || t[|t| - 1] != ']' then (t, None)
    else
      var rest := t[..|t| - 1];
      var open := IndexOf(rest, '[');
      if open == |rest| then (t, None)
      else if rest[open + 1..] == "base" then (rest[..open], None)
      else (rest[..open], Some(rest[open + 1..]))
  }

  function ParseModelPin(text: string): (r: Result<Option<ModelSelection>, string>)
    ensures r.Ok? && r.value.Some? ==> ValidPin(r.value.value)
  {
    var t := Trim(text);
    if t == "" then Ok(None)
    else
      var (model, variant) := SplitPin(t);
      if ValidModelKey(model) && (variant.Some? ==> ValidVariantId(variant.value))
      then Ok(Some(ModelSelection(model, variant)))
      else Err("a model is `provider/model` or `provider/model[variant]`")
  }

  function ModelPinText(pin: ModelSelection): string {
    match pin.variant
    case Some(variant) => pin.model + "[" + variant + "]"
    case None => pin.model
  }

  // ------------------------------------------------------------------ the form

  function OfJob(clock: Clock, job: CronJob): CronDraft {
    CronDraft(
      match job.name case Some(name) => name case None => "",
      job.prompt,
      ScheduleText(clock, job.schedule),
      if job.schedule.Cron? then PrintInt(CountOf(job.maxRuns)) else "",
      (match job.target
       case Session(session) => DraftSession(session, false)
       case Subagent(session) => DraftSession(session, true)
       case New(template) => DraftNew(template)),
      match job.delivery case Some(delivery) => delivery case None => Queue,
      job.permissionMode,
      if job.target.New? && job.target.template.model.Some? then ModelPinText(job.target.template.model.value) else "",
      if job.target.New? then job.target.template.agent else "")
  }

  function ResolvedTarget(draft: CronDraft): Result<CronTarget, string> {
    match draft.target
    case DraftSession(session, subagent) => Ok(if subagent then Subagent(session) else Session(session))
    case DraftNew(template) =>
      var typed := Trim(draft.agent);
      if typed != "" && !ValidAgentId(typed) then Err("`" + typed + "` is not an agent id")
      else match ParseModelPin(draft.model)
        case Err(e) => Err(e)
        case Ok(model) => Ok(New(template.(agent := if typed == "" then template.agent else typed, model := model)))
  }

  function CheckedPrompt(draft: CronDraft): Result<string, string> {
    if Trim(draft.prompt) == "" then Err("a job needs a prompt") else Ok(TrimEnd(draft.prompt))
  }

  function CheckedName(draft: CronDraft): Option<string> {
    if Trim(draft.name) == "" then None else Some(Trim(draft.name))
  }

  function MaxRunsFor(schedule: CronSchedule, text: string): Result<Option<CronMaxRuns>, string> {
    if schedule.Cron? then ParseMaxRuns(text) else Ok(None)
  }

  /** The job the form stands for, or the first thing that keeps it from being one. */
  function Create(clock: Clock, draft: CronDraft): Result<CreateParams, string> {
    match ParseSchedule(clock, draft.schedule)
    case Err(e) => Err(e)
    case Ok(schedule) =>
      match MaxRunsFor(schedule, draft.maxRuns)
      case Err(e) => Err(e)
      case Ok(maxRuns) =>
        match CheckedPrompt(draft)
        case Err(e) => Err(e)
        case Ok(prompt) =>
          match ResolvedTarget(draft)
          case Err(e) => Err(e)
          case Ok(target) =>
            Ok(CreateParams(CheckedName(draft), prompt, schedule, maxRuns, target,
                            if draft.target.DraftNew? then None else Some(draft.delivery),
                            if draft.target.DraftNew? then draft.permissionMode else None))
  }

  predicate ScheduleChanged(clock: Clock, draft: CronDraft, job: CronJob) {
    Trim(draft.schedule) != Trim(ScheduleText(clock, job.schedule))
  }

  /** The run limit an edit sends: only a cron schedule's, and only a new one. */
  function UpdatedRuns(clock: Clock, draft: CronDraft, job: CronJob,
      schedule: CronSchedule): Result<Option<CronMaxRuns>, string> {
    var changed := ScheduleChanged(clock, draft, job);
    if schedule.Cron? && (Trim(draft.maxRuns) != Trim(OfJob(clock, job).maxRuns) || changed) then
      match ParseMaxRuns(draft.maxRuns)
      case Err(e) => Err(e)
      case Ok(runs) => Ok(if runs == Some(job.maxRuns) && !changed then None else runs)
    else Ok(None)
  }

  /** The members of `job` that the form says otherwise. */
  function Update(clock: Clock, draft: CronDraft, job: CronJob): Result<UpdateParams, string> {
    match CheckedPrompt(draft)
    case Err(e) => Err(e)
    case Ok(prompt) =>
      match ParseSchedule(clock, draft.schedule)
      case Err(e) => Err(e)
      case Ok(schedule) =>
        match UpdatedRuns(clock, draft, job, schedule)
        case Err(e) => Err(e)
        case Ok(maxRuns) =>
          match ResolvedTarget(draft)
          case Err(e) => Err(e)
          case Ok(target) =>
            var isNew := draft.target.DraftNew?;
            Ok(UpdateParams(
              job.id,
              if Trim(draft.name) != Trim(OfJob(clock, job).name) then Some(CheckedName(draft)) else None,
              if prompt != job.prompt then Some(prompt) else None,
              if ScheduleChanged(clock, draft, job) then Some(schedule) else None,
              maxRuns,
              if target != job.target then Some(target) else None,
              if !isNew && Some(draft.delivery) != job.delivery then Some(draft.delivery) else None,
              if isNew && draft.permissionMode != job.permissionMode then Some(draft.permissionMode) else None))
  }

  /** `update_params`, which fills in the params one by one. */
  method FillUpdate(clock: Clock, draft: CronDraft, job: CronJob) returns (r: Result<UpdateParams, string>)
    ensures r == Update(clock, draft, job)
  {
    hide ResolvedTarget, CheckedPrompt, CheckedName, ParseSchedule, ParseMaxRuns, Trim, ScheduleText;
    var before := OfJob(clock, job);
    var params := UpdateParams(job.id, None, None, None, None, None, None, None);
    if Trim(draft.name) != Trim(before.name) {
      params := params.(name := Some(CheckedName(draft)));
    }
    var prompt := CheckedPrompt(draft);
    if prompt.Err? { return Err(prompt.error); }
    if prompt.value != job.prompt {
      params := params.(prompt := Some(prompt.value));
    }
    var schedule := ParseSchedule(clock, draft.schedule);
    if schedule.Err? { return Err(schedule.error); }
    var scheduleChanged := Trim(draft.schedule) != Trim(before.schedule);
    if scheduleChanged {
      params := params.(schedule := Some(schedule.value));
    }
    if schedule.value.Cron? && (Trim(draft.maxRuns) != Trim(before.maxRuns) || scheduleChanged) {
      var runs := ParseMaxRuns(draft.maxRuns);
      if runs.Err? { return Err(runs.error); }
      params := params.(maxRuns := runs.value);
      if params.maxRuns == Some(job.maxRuns) && !scheduleChanged {
        params := params.(maxRuns := None);
      }
    }
    var target := ResolvedTarget(draft);
    if target.Err? { return Err(target.error); }
    if target.value != job.target {
      params := params.(target := Some(target.value));
    }
    if !draft.target.DraftNew? && Some(draft.delivery) != job.delivery {
      params := params.(delivery := Some(draft.delivery));
    }
    if draft.target.DraftNew? && draft.permissionMode != job.permissionMode {
      params := params.(permissionMode := Some(draft.permissionMode));
    }
    return Ok(params);
  }

  function OrKept<T>(change: Option<T>, kept: T): T {
    match change case Some(v) => v case None => kept
  }

  /** `job` with the members present in `params` changed. */
  function Applied(job: CronJob, params: UpdateParams): CronJob {
    CronJob(
      job.id, OrKept(params.name, job.name), OrKept(params.prompt, job.prompt), OrKept(params.schedule, job.schedule),
      OrKept(params.maxRuns, job.maxRuns), OrKept(params.target, job.target),
      if params.delivery.Some? then params.delivery else job.delivery,
      OrKept(params.permissionMode, job.permissionMode))
  }

  // --------------------------------------------------------- the text fields read back

  /** A printed pin reads back: a key holds no bracket, and no variant is "base". */
  lemma ModelPinRoundTrip(pin: ModelSelection)
    requires ValidPin(pin)
    ensures ParseModelPin(ModelPinText(pin)) == Ok(Some(pin)) && ModelPinText(pin) != ""
  {
    hide ValidModelKey, ValidVariantId;
    ModelKeyShape(pin.model);
    match pin.variant
    case None =>
      TrimOfTrimmed(pin.model);
    case Some(variant) =>
      var t := ModelPinText(pin);
      var rest := t[..|t| - 1];
      assert t[0] == pin.model[0] && t[|t| - 1] == ']';
      TrimOfTrimmed(t);
      assert rest == pin.model + ['['] + variant;
      IndexOfAppend(pin.model, '[', variant);
      assert rest[..|pin.model|] == pin.model && rest[|pin.model| + 1..] == variant;
      VariantIsNotBase(variant);
  }

  lemma VariantIsNotBase(variant: string)
    requires ValidVariantId(variant)
    ensures variant != "base"
  {}

  lemma AgentIdTrimmed(agent: string)
    requires ValidAgentId(agent)
    ensures agent != "" && Trim(agent) == agent
  {
    assert !IsSpace(agent[0]) && !IsSpace(agent[|agent| - 1]);
    TrimOfTrimmed(agent);
  }

  /** A run limit reads back from its count, but for the count 0 meaning no limit. */
  lemma RunsRoundTrip(runs: CronMaxRuns)
    requires runs.Count? ==> runs.count <= U32_MAX
    ensures ParseMaxRuns(PrintInt(CountOf(runs))) == Ok(Some(if runs == Count(0) then Unlimited else runs))
  {
    I64RoundTrip(CountOf(runs));
    TrimOfTrimmed(PrintInt(CountOf(runs)));
  }

  lemma ParsedRunsArePositive(text: string)
    requires ParseMaxRuns(text).Ok? && ParseMaxRuns(text).value.Some?
    ensures var runs := ParseMaxRuns(text).value.value;
            (runs.Count? ==> 0 < runs.count <= U32_MAX) && ParseMaxRuns(PrintInt(CountOf(runs))) == Ok(Some(runs))
  {
    RunsRoundTrip(ParseMaxRuns(text).value.value);
  }

  /** A cron expression whose first field is a word the form reads otherwise. */
  predicate ReadsOtherwise(schedule: CronSchedule) {
    schedule.Cron? && ("in " <= schedule.expression || "at " <= schedule.expression)
  }

  /** A parsed schedule reads back from its text unless its first field is `in` or `at`. */
  lemma ScheduleRoundTrip(clock: Clock, text: string)
    requires Faithful(clock) && ParseSchedule(clock, text).Ok?
    ensures var schedule := ParseSchedule(clock, text).value;
            ParseSchedule(clock, ScheduleText(clock, schedule)) == Ok(schedule) <==> !ReadsOtherwise(schedule)
  {
    hide Words, Trim, Join;
    var schedule := ParseSchedule(clock, text).value;
    match schedule
    case Cron(expression) => ExpressionRoundTrip(clock, Words(Trim(text)));
    case In(delay) => PrefixedReads("in ", delay);
    case At(at) => PrefixedReads("at ", clock.format(at));
  }

  lemma ExpressionRoundTrip(clock: Clock, words: seq<string>)
    requires |words| == 5 && forall i :: 0 <= i < 5 ==> IsWord(words[i])
    ensures var expression := Join(words, " ");
            ParseSchedule(clock, expression) == Ok(Cron(expression)) <==> !ReadsOtherwise(Cron(expression))
  {
    hide Words, Trim, Join;
    JoinWordsTrimmed(words);
    TrimOfTrimmed(Join(words, " "));
    WordsJoin(words);
  }

  lemma PrefixedReads(prefix: string, rest: string)
    requires |prefix| == 3 && !IsSpace(prefix[0]) && rest != "" && Trimmed(rest)
    ensures var t := prefix + rest; Trim(t) == t && prefix <= t && Trim(t[3..]) == rest
  {
    var t := prefix + rest;
    assert t[|t| - 1] == rest[|rest| - 1];
    TrimOfTrimmed(t);
    assert t[3..] == rest;
    TrimOfTrimmed(rest);
  }
}
