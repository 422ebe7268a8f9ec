/** Editing a job through the form agrees with creating it from the form. */
module CronEdits {
  import opened Results
  import opened Text
  import opened Identities
  import opened CronForms

  // ------------------------------------------------------------- what is sent

  /** A one-shot's text is never read as a cron expression. */
  lemma OneShotStaysOneShot(clock: Clock, schedule: CronSchedule)
    requires Faithful(clock)
    requires ParseSchedule(clock, ScheduleText(clock, schedule)).Ok?
    requires ParseSchedule(clock, ScheduleText(clock, schedule)).value.Cron?
    ensures schedule.Cron?
  {
    match schedule
    case Cron(_) =>
    case At(at) => PrefixedReads("at ", clock.format(at));
    case In(delay) => DelayIsNotCron(clock, delay);
  }

  lemma DelayIsNotCron(clock: Clock, delay: string)
    ensures var r := ParseSchedule(clock, "in " + delay); r.Ok? ==> !r.value.Cron?
  {
    hide Words, TrimEnd;
    var t := "in " + delay;
    assert t[0] == 'i';
    assert TrimStart(t) == t;
    TrimEndAppend("in ", delay);
    if TrimEnd(delay) == "" {
      TrimEndAppend("in", " ");
      OnlyIn();
      assert "in" + " " == "in ";
    } else {
      var trimmed := "in " + TrimEnd(delay);
      assert trimmed[..3] == "in ";
    }
  }

  lemma OnlyIn()
    ensures TrimEnd(" ") == "" && TrimEnd("in") == "in" && Words("in") == ["in"]
  {
    assert " "[..0] == "";
    assert IsWord("in");
    WordEndAppend("in", "");
    assert "in" + "" == "in" && "in"[..2] == "in" && "in"[2..] == "";
  }

  /** An edit can be sent exactly when the form could create a job. */
  lemma UpdateSendableIffCreate(clock: Clock, draft: CronDraft, job: CronJob)
    requires Faithful(clock) && ValidJob(job)
    ensures Update(clock, draft, job).Ok? <==> Create(clock, draft).Ok?
  {
    hide ResolvedTarget, CheckedPrompt, ParseSchedule, ParseMaxRuns;
    if ParseSchedule(clock, draft.schedule).Ok? {
      var schedule := ParseSchedule(clock, draft.schedule).value;
      RunsSendable(clock, draft, job, schedule);
    }
  }

  lemma RunsSendable(clock: Clock, draft: CronDraft, job: CronJob, schedule: CronSchedule)
    requires Faithful(clock) && ValidJob(job) && ParseSchedule(clock, draft.schedule) == Ok(schedule)
    ensures UpdatedRuns(clock, draft, job, schedule).Ok? <==> MaxRunsFor(schedule, draft.maxRuns).Ok?
  {
    if schedule.Cron? && !ScheduleChanged(clock, draft, job) && Trim(draft.maxRuns) == Trim(OfJob(clock, job).maxRuns) {
      SameTextSameSchedule(clock, draft.schedule, ScheduleText(clock, job.schedule));
      OneShotStaysOneShot(clock, job.schedule);
      RunsRoundTrip(job.maxRuns);
      SameTextSameRuns(draft.maxRuns, OfJob(clock, job).maxRuns);
    }
  }

  lemma SameTextSameSchedule(clock: Clock, a: string, b: string)
    requires Trim(a) == Trim(b)
    ensures ParseSchedule(clock, a) == ParseSchedule(clock, b)
  {}

  lemma SameTextSameRuns(a: string, b: string)
    requires Trim(a) == Trim(b)
    ensures ParseMaxRuns(a) == ParseMaxRuns(b)
  {}

  // --------------------------------------------------------- the form reopened

  lemma NameAgrees(clock: Clock, draft: CronDraft, job: CronJob)
    requires Update(clock, draft, job).Ok?
    ensures CheckedName(OfJob(clock, Applied(job, Update(clock, draft, job).value))) == CheckedName(draft)
  {
    hide ResolvedTarget, CheckedPrompt, ParseSchedule, UpdatedRuns, ScheduleText, ScheduleChanged;
    TrimTwice(draft.name);
  }

  lemma PromptAgrees(clock: Clock, draft: CronDraft, job: CronJob)
    requires Update(clock, draft, job).Ok?
    ensures CheckedPrompt(OfJob(clock, Applied(job, Update(clock, draft, job).value))) == CheckedPrompt(draft)
  {
    hide ResolvedTarget, ParseSchedule, UpdatedRuns, ScheduleText, ScheduleChanged, Trim, TrimEnd;
    TrimEndThenTrim(draft.prompt);
  }

  lemma TargetAgrees(clock: Clock, draft: CronDraft, job: CronJob)
    requires ValidDraft(draft) && Update(clock, draft, job).Ok?
    ensures ResolvedTarget(OfJob(clock, Applied(job, Update(clock, draft, job).value))) == ResolvedTarget(draft)
    ensures OfJob(clock, Applied(job, Update(clock, draft, job).value)).target.DraftNew? <==> draft.target.DraftNew?
  {
    hide ParseSchedule, UpdatedRuns, ScheduleText, ScheduleChanged, CheckedPrompt, CheckedName, ParseModelPin,
         ModelPinText, Trim, ValidAgentId;
    var target := ResolvedTarget(draft).value;
    assert Applied(job, Update(clock, draft, job).value).target == target;
    if target.New? {
      ResolvedIsValid(draft);
      AgentIdTrimmed(target.template.agent);
      if target.template.model.Some? {
        ModelPinRoundTrip(target.template.model.value);
      } else {
        NoPin();
      }
    }
  }

  lemma NoPin()
    ensures ParseModelPin("") == Ok(None)
  {}

  lemma ResolvedIsValid(draft: CronDraft)
    requires ValidDraft(draft) && ResolvedTarget(draft).Ok? && ResolvedTarget(draft).value.New?
    ensures ValidTemplate(ResolvedTarget(draft).value.template)
  {
    hide ValidAgentId, Trim;
  }

  /** The schedule reads back unless a new one's first field is `in` or `at`. */
  lemma ScheduleAgrees(clock: Clock, draft: CronDraft, job: CronJob)
    requires Faithful(clock) && Update(clock, draft, job).Ok?
    ensures var schedule := ParseSchedule(clock, draft.schedule);
            var reopened := OfJob(clock, Applied(job, Update(clock, draft, job).value));
            schedule.Ok? &&
            (ParseSchedule(clock, reopened.schedule) == schedule <==>
             !(ReadsOtherwise(schedule.value) && ScheduleChanged(clock, draft, job)))
  {
    hide ResolvedTarget, CheckedPrompt, CheckedName, UpdatedRuns, ParseSchedule, ScheduleText, Trim;
    if ScheduleChanged(clock, draft, job) {
      ScheduleRoundTrip(clock, draft.schedule);
    } else {
      SameTextSameSchedule(clock, draft.schedule, ScheduleText(clock, job.schedule));
    }
  }

  /** The run limit of a cron schedule reads back unless it was left blank. */
  lemma RunsAgree(clock: Clock, draft: CronDraft, job: CronJob)
    requires Faithful(clock) && ValidJob(job) && Update(clock, draft, job).Ok?
    requires ParseSchedule(clock, draft.schedule).Ok?
    ensures var schedule := ParseSchedule(clock, draft.schedule).value;
            var reopened := OfJob(clock, Applied(job, Update(clock, draft, job).value));
            MaxRunsFor(schedule, reopened.maxRuns) == MaxRunsFor(schedule, draft.maxRuns) <==>
            !(schedule.Cron? && Trim(draft.maxRuns) == "")
  {
    hide ResolvedTarget, CheckedPrompt, CheckedName, ParseSchedule, ScheduleText, Trim, ParseMaxRuns;
    var schedule := ParseSchedule(clock, draft.schedule).value;
    if schedule.Cron? {
      var applied := Applied(job, Update(clock, draft, job).value);
      if !ScheduleChanged(clock, draft, job) {
        SameTextSameSchedule(clock, draft.schedule, ScheduleText(clock, job.schedule));
        OneShotStaysOneShot(clock, job.schedule);
      }
      assert applied.schedule.Cron?;
      RunsReopened(clock, draft, job, schedule, applied.maxRuns);
    }
  }

  lemma RunsReopened(clock: Clock, draft: CronDraft, job: CronJob, schedule: CronSchedule, runs: CronMaxRuns)
    requires ValidJob(job) && schedule.Cron? && UpdatedRuns(clock, draft, job, schedule).Ok?
    requires runs == OrKept(UpdatedRuns(clock, draft, job, schedule).value, job.maxRuns)
    requires !ScheduleChanged(clock, draft, job) ==> job.schedule.Cron?
    ensures ParseMaxRuns(PrintInt(CountOf(runs))) == ParseMaxRuns(draft.maxRuns) <==> Trim(draft.maxRuns) != ""
  {
    hide ScheduleText, Trim, ParseMaxRuns, ScheduleChanged, PrintInt;
    RunsRoundTrip(job.maxRuns);
    BlankRuns(draft.maxRuns);
    if !ScheduleChanged(clock, draft, job) && Trim(draft.maxRuns) == Trim(OfJob(clock, job).maxRuns) {
      SameTextSameRuns(draft.maxRuns, OfJob(clock, job).maxRuns);
      CountIsNotBlank(job.maxRuns);
    } else if Trim(draft.maxRuns) != "" {
      ParsedRunsArePositive(draft.maxRuns);
    }
  }

  lemma CountIsNotBlank(runs: CronMaxRuns)
    ensures Trim(PrintInt(CountOf(runs))) != ""
  {
    TrimOfTrimmed(PrintInt(CountOf(runs)));
  }

  lemma BlankRuns(text: string)
    ensures ParseMaxRuns(text) == Ok(None) <==> Trim(text) == ""
  {}

  /** The edits whose reopened form stands for the same job. */
  predicate Reopens(clock: Clock, draft: CronDraft, job: CronJob)
    requires ParseSchedule(clock, draft.schedule).Ok?
  {
    var schedule := ParseSchedule(clock, draft.schedule).value;
    && !(schedule.Cron? && Trim(draft.maxRuns) == "")
    && !(ReadsOtherwise(schedule) && ScheduleChanged(clock, draft, job))
  }

  /**
    Applying an edit to the job and opening the form again gives a form that
    creates the same job as the edited one, except when a cron schedule's run
    limit was left blank (the form then shows the limit the job kept), or a new
    cron expression starts with a field `in` or `at` (which the form reads as a
    delay or a time).
   */
  lemma EditAgreesWithCreate(clock: Clock, draft: CronDraft, job: CronJob)
    requires Faithful(clock) && ValidJob(job) && ValidDraft(draft) && Update(clock, draft, job).Ok?
    ensures ParseSchedule(clock, draft.schedule).Ok?
    ensures var reopened := OfJob(clock, Applied(job, Update(clock, draft, job).value));
            Create(clock, reopened) == Create(clock, draft) <==> Reopens(clock, draft, job)
  {
    hide ResolvedTarget, CheckedPrompt, CheckedName, ParseSchedule, ScheduleText, Trim, ParseMaxRuns, OfJob,
         ReadsOtherwise, ScheduleChanged, Update;
    ScheduleAgrees(clock, draft, job);
    RunsAgree(clock, draft, job);
    NameAgrees(clock, draft, job);
    PromptAgrees(clock, draft, job);
    TargetAgrees(clock, draft, job);
    UpdateSendableIffCreate(clock, draft, job);
    MembersAgree(clock, draft, job);
  }

  lemma MembersAgree(clock: Clock, draft: CronDraft, job: CronJob)
    requires Update(clock, draft, job).Ok?
    ensures var reopened := OfJob(clock, Applied(job, Update(clock, draft, job).value));
            && (!draft.target.DraftNew? ==> reopened.delivery == draft.delivery)
            && (draft.target.DraftNew? ==> reopened.permissionMode == draft.permissionMode)
  {
    hide ResolvedTarget, CheckedPrompt, CheckedName, ParseSchedule, ScheduleText, Trim, UpdatedRuns, ScheduleChanged;
  }

  /**
    A form opened on a job and sent as it is changes nothing, exactly when its
    prompt and schedule can be sent and the job says how it is delivered.
   */
  lemma UntouchedFormSendsNothing(clock: Clock, job: CronJob)
    requires Faithful(clock) && ValidJob(job)
    ensures Update(clock, OfJob(clock, job), job) ==
              Ok(UpdateParams(job.id, None, None, None, None, None, None, None)) <==>
            && Trim(job.prompt) != "" && TrimEnd(job.prompt) == job.prompt
            && ParseSchedule(clock, ScheduleText(clock, job.schedule)).Ok?
            && (job.target.New? || job.delivery.Some?)
  {
    hide ParseSchedule, Trim, TrimEnd, ScheduleText, ParseModelPin, ModelPinText, ValidAgentId, ParseMaxRuns;
    if job.target.New? {
      AgentIdTrimmed(job.target.template.agent);
      if job.target.template.model.Some? {
        ModelPinRoundTrip(job.target.template.model.value);
      } else {
        NoPin();
      }
    }
    assert ResolvedTarget(OfJob(clock, job)) == Ok(job.target);
  }

  /** A cron job's form with the run limit blanked. */
  function Blanked(clock: Clock, job: CronJob): CronDraft {
    OfJob(clock, job).(maxRuns := "")
  }

  /**
    Blanking the run limit of a cron job is such an edit, if it can be sent: the
    form asks for the default limit, and once reopened for the limit the job has. (A
    job whose expression the form reads as a delay or a time shows no limit, and the
    edit agrees.)
   */
  lemma BlankedLimitComesBack(clock: Clock, job: CronJob)
    requires Faithful(clock) && ValidJob(job) && job.schedule.Cron? && Create(clock, Blanked(clock, job)).Ok?
    ensures Update(clock, Blanked(clock, job), job).Ok?
    ensures var created := Create(clock, Blanked(clock, job)).value;
            var reopened := OfJob(clock, Applied(job, Update(clock, Blanked(clock, job), job).value));
            created.maxRuns == None &&
            Create(clock, reopened) ==
            if created.schedule.Cron?
            then Ok(created.(maxRuns := Some(if job.maxRuns == Count(0) then Unlimited else job.maxRuns)))
            else Ok(created)
  {
    var draft := Blanked(clock, job);
    assert ValidDraft(draft);
    UpdateSendableIffCreate(clock, draft, job);
    BlankedKeepsLimit(clock, job);
    ScheduleAgrees(clock, draft, job);
    NameAgrees(clock, draft, job);
    PromptAgrees(clock, draft, job);
    TargetAgrees(clock, draft, job);
    MembersAgree(clock, draft, job);
    BlankRuns("");
    hide ParseSchedule, ParseMaxRuns, Trim, ScheduleText, Update, Applied, OfJob, Blanked, ResolvedTarget,
         CheckedPrompt, CheckedName, ReadsOtherwise, ScheduleChanged;
  }

  lemma BlankedKeepsLimit(clock: Clock, job: CronJob)
    requires Faithful(clock) && ValidJob(job) && job.schedule.Cron? && Update(clock, Blanked(clock, job), job).Ok?
    ensures var reopened := OfJob(clock, Applied(job, Update(clock, Blanked(clock, job), job).value));
            ParseMaxRuns(reopened.maxRuns) == Ok(Some(if job.maxRuns == Count(0) then Unlimited else job.maxRuns))
    ensures !ScheduleChanged(clock, Blanked(clock, job), job) && Trim("") == ""
  {
    hide ParseSchedule, ParseMaxRuns, ScheduleText, ResolvedTarget, CheckedPrompt, CheckedName, PrintInt, Trim;
    RunsRoundTrip(job.maxRuns);
    CountIsNotBlank(job.maxRuns);
    BlankRuns("");
    TrimOfTrimmed("");
  }

  /**
    So is any new expression of `in`, a tab, and four more fields: its text is read
    as a delay afterwards. The form takes it; the daemon refuses such a field, so no
    job comes to hold it.
   */
  lemma WordedExpressionReadsAsDelay(clock: Clock, fields: seq<string>)
    requires |fields| == 4 && forall i :: 0 <= i < 4 ==> IsWord(fields[i])
    ensures var text := "in" + ("\t" + Join(fields, " "));
            && ParseSchedule(clock, text) == Ok(Cron("in " + Join(fields, " ")))
            && ParseSchedule(clock, "in " + Join(fields, " ")) == Ok(In(Join(fields, " ")))
  {
    hide Words, Trim, Join, ParseSchedule, IsWord;
    var rest := Join(fields, " ");
    JoinWordsTrimmed(fields);
    DelayReads(clock, rest);
    WordsJoin(fields);
    var text := "in" + ("\t" + rest);
    WordsAfterTab(rest);
    var words := ["in"] + fields;
    assert Words(text) == words;
    assert text[0] == 'i' && text[2] == '\t' && text[|text| - 1] == rest[|rest| - 1];
    ExpressionReads(clock, text, words);
    JoinFirst("in", fields);
    assert "in" + " " + rest == "in " + rest;
  }

  lemma DelayReads(clock: Clock, rest: string)
    requires rest != "" && Trimmed(rest)
    ensures ParseSchedule(clock, "in " + rest) == Ok(In(rest))
  {
    hide Words, Trim;
    PrefixedReads("in ", rest);
  }

  lemma ExpressionReads(clock: Clock, text: string, words: seq<string>)
    requires |text| > 2 && Trimmed(text) && text[2] != ' ' && Words(text) == words && |words| == 5
    ensures ParseSchedule(clock, text) == Ok(Cron(Join(words, " ")))
  {
    hide Words, Trim, Join;
    TrimOfTrimmed(text);
  }

  lemma JoinFirst(first: string, rest: seq<string>)
    requires rest != []
    ensures Join([first] + rest, " ") == first + " " + Join(rest, " ")
  {
    assert ([first] + rest)[1..] == rest;
  }

  lemma WordsAfterTab(rest: string)
    ensures Words("in" + ("\t" + rest)) == ["in"] + Words(rest)
  {
    var tail := "\t" + rest;
    var text := "in" + tail;
    assert IsWord("in");
    WordEndAppend("in", tail);
    TabIsSkipped(rest);
    assert text[..2] == "in" && text[2..] == tail && text[0] == 'i';
  }

  lemma TabIsSkipped(rest: string)
    ensures Words("\t" + rest) == Words(rest)
  {
    var s := "\t" + rest;
    assert s[0] == '\t' && s[1..] == rest;
  }
}
