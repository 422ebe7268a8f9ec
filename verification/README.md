# Client logic, proved

Dafny models of the parts of the Cookie Agent repository where clients decide
something: what they show, what they send, and where they cut. Each module
follows one source file, keeps its branches and error cases, and proves what the
file promises on every input, run or reachable state. `dafny verify
dfyconfig.toml` checks everything.

## What is modelled

**The Configuration form** (`ConfigValues`, `ConfigFields`, `ModelLists`,
`ConfigSchema`, `ConfigForms`, `ConfigSorter`, `ConfigSecrecy`, `ConfigCredentials`,
`ConfigEdits`, `ConfigDrafts`; `config_form.rs`). `ConfigForm` is a class whose
`Build`, `SortTable` and `SortValue` change it in place while they walk a JSON tree
in an arbitrary order. The sections and managed tables are parameters; the only
facts used are that no known key is empty or leads to another. The main results are
that every value is shown in exactly one place, that credentials do not interfere
with the form and no box shows one, with the credentials' names spelled out, and
that editing settles: after apply and rebuild each drafted field shows what its
draft reads as, nothing else has changed, and the same drafts say nothing.

**Cron jobs** (`CronReadings`, `CronNames`, `CronDecoder`, `CronUnambiguous`,
`CronForms`, `CronEdits`, `CronSends`; `cron.rs`). Which texts stand for which
schedule is said exactly; the phrase a schedule reads as names what was typed, and is
shown unambiguous by a decoder that recovers the fields from it; what a form creates
and what an edit leaves is said member by member; and an edit through the form is
compared with creating the same job.

**Step protocols.** `OAuthServer`, `OAuthSafety` and `OAuthHandlers` model `mock-oauth.py` as
threads that change three shared tables one use of the lock at a time, and prove
the safety of the authorization code flow (sections 4.1.2 and 4.1.3 of RFC 6749,
section 4.6 of RFC 7636, section 3.2.1 of RFC 7591) over all interleavings.
`ModelDrafts` models the debounced publishing of a model draft between clients
(`model_draft.rs` and its caller in the terminal client, where the draft can also
be replaced without a pick).

**Choices and placement.** `Exposure` (`exposure.rs`) relates a change row to the
change it tells of, `AcpAgents` (`acp.rs`) shows that four placement functions
agree and that a draft's options refine its history, and `ShortNames`
(`call_machines.rs`) works on bytes as the code does.

**Smaller cores.** `CutPoints` (`cut_points.rs`) cuts the history that the fold of
the session log in `reduce.rs` leaves, `CutBoundaries` says the cut by the log's
events alone, and `HistoryCuts` compares it with where the daemon cuts
(`sessions.rs`); `InlineScripts` (`build.rs`) reads every
text as a page (section 2.3.1 of W3C Content Security Policy Level 3); and
`ScenarioPlan` (`scenarios.py`) closes a request under needs.

`Text`, `Sequences` and `Results` hold the string library, distinctness and the
optional and fallible values they share.

## Where the code does less than it says

Each of these is a theorem with its exact condition, and a counterexample where
the condition is not plain:

- `ConfigField::text` says `parse` reads its text back. It does so exactly for
  canonical values: not for an integer past `i64`, an integer of a number field,
  untrimmed or blank text, an empty list of choices, or a credential
  (`ConfigFields.TextRoundTrip`).
- A model list does not read back when it is empty or names a field of a newer
  daemon (`ModelLists.WriteThenRead`).
- An edited job, reopened, is not what the form said when the run limit of a cron
  schedule was blanked, or when a new expression starts with the field `in` or `at`
  (`CronEdits.EditAgreesWithCreate`). The second is the form's alone: the daemon
  takes no such field (crates/engine/src/crons/schedule.rs:98-118), so it refuses
  the edit and no job comes to hold such an expression
  (`CronEdits.WordedExpressionReadsAsDelay`).
- A short name can be another machine's whole name (`ShortNames.ShortsCollideIff`),
  though the comment says that such a name stays whole.
- A stale pick is published again after exactly 2^64 picks
  (`ModelDrafts.StalePickPublishesAfterWrap`).
- A pick goes out as another value, or not at all, when the draft was replaced
  before its timer fired, and a draft replaced later stays unpublished
  (`ModelDrafts.OnlyTheLatestPickPublishes`, `ModelDrafts.SettledDraftIsPublished`).
- A cut before a user message keeps a producer's message that came in before its
  run, which the cut at the reply does not (`HistoryCuts.OwnRunCutsAtTheReply`).

## What is assumed

- serde_json and the standard library print the one value a theorem is about as
  trimmed non-empty text that they read back (`ConfigFields.ReadsBack`), and the time
  library does so for every time (`CronForms.Faithful`). Both can be met:
  `ConfigFields.WholeNumbersReadBack` and `CronForms.NanosecondClock` build examples.
- SHA-256 is any function; only one result assumes that it never gives the empty
  text. Random codes and tokens are fresh.
- Rule lists after a change have one rule per key, options distinct ids, machines
  distinct names and a suite distinct names, where a theorem says so. An agent's
  offers have distinct runtimes, as the daemon keeps one entry per agent and runtime
  (crates/engine/src/runtime/acp.rs:146-176); what holds without is
  `AcpAgents.PickedCanRunIff` and `AcpAgents.RunsByDefaultIff`.
- A run of the session log shows no new block once it finished, a block keeps its run,
  and for `HistoryCuts.OwnRunCutsAtTheReply` runs do not overlap.

## Model

| member | source | states |
|---|---|---|
| ConfigDrafts.EditThenRebuild | crates/client_state/src/config_form.rs:931-1126 | Editing settles: after the changes of any drafts are applied and the form is built again, each drafted field shows what its draft's text reads as, or stays unset where it was and its default reads as that; every other field, box and count is as before (boxes up to order); and the same drafts give no change and no error |
| ConfigDrafts.DraftIsApplied | crates/client_state/src/config_form.rs:931-1126 | In the document itself: the key of each drafted field holds what the draft reads as, or had nothing, has nothing and the default reads as the same; an undrafted field holds what it held |
| ConfigDrafts.ChangesAre | crates/client_state/src/config_form.rs:931-1126 | A `set` is sent for a field if and only if its draft reads as something other than its value and, for an unset field, other than what its default reads as; it sets just that, or removes the key |
| ConfigDrafts.ErrorsAre | crates/client_state/src/config_form.rs:931-1126 | A path is in the errors, with a reason, if and only if that field has a draft that does not parse for that reason, or that would set an unset field whose default does not |
| ConfigDrafts.ChangesInOrder | crates/client_state/src/config_form.rs:1096-1126 | Changes and errors come in the form's order |
| ConfigDrafts.ParseIs | crates/client_state/src/config_form.rs:108-153 | Which value each text reads as, for every kind: nothing if and only if it is blank, a value if and only if the text without blanks at its ends means it, else an error |
| ConfigDrafts.AcceptedIff | crates/client_state/src/config_form.rs:68-110 | A field accepts a value if and only if some text reads as it, or it is one of the few it only shows: any string as text or credential, an integer as a number, an unsigned 64-bit one, the empty list |
| ConfigDrafts.AppliedMeansTheDraft | crates/client_state/src/config_form.rs:907-943 | What a field shows while drafted (its draft, or the default of a blank one) reads as what it shows once the draft is applied |
| ConfigEdits.RebuiltIsEdited | crates/client_state/src/config_form.rs:988-1126 | The frame of an edit, also for drafts that say what is there already: which fields, boxes and managed counts the rebuilt form has |
| ConfigEdits.ChangesAccepted | crates/config/src/tree.rs:481-558 | The whole list of `set`s goes through if and only if, in the document before it, nothing but tables lies on the way to each changed key; no change of the list can refuse a later one |
| ConfigEdits.ApplyEditable | crates/config/src/tree.rs:481-558 | Any list of changes to different fields of a form moves no box, keeps every box's value, and leaves each known key with its own change or what it held |
| ConfigEdits.FieldAfterDraft | crates/client_state/src/config_form.rs:931-1126 | The frame of `ConfigDrafts.DraftIsApplied`: each field of the schema depends on its own draft alone, whatever the other drafts are, and one the form cannot show keeps its value |
| ConfigEdits.SetMovesNoBox | crates/client_state/src/config_form.rs:1020-1068 | One `set` of a shown field changes neither which keys are boxed nor what the boxes hold, although it can create and fill tables on the way |
| ConfigEdits.SetKeepsOtherKnownKeys | crates/config/src/tree.rs:481-536 | The same `set` leaves every other field and managed table as it was |
| ConfigEdits.AppliedDraftsSettle | crates/client_state/src/config_form.rs:931-943 | Once every field holds what its draft changes it to, the drafts change nothing more |
| ConfigEdits.Changes | crates/client_state/src/config_form.rs:1096-1126 | The loop over the fields gives no change when any draft fails, and otherwise the changes `ConfigDrafts.ChangesAre` tells, with the errors of `ConfigDrafts.ErrorsAre` |
| ConfigSecrecy.CredentialsDoNotInterfere | crates/client_state/src/config_form.rs:1020-1068 | Two documents that differ only in strings of `Secret` fields, in credentials inside what no field accepts (at any depth of tables and arrays), and inside managed tables of equal size build the same form, up to box order; which names are credentials is `ConfigCredentials.SecretNamesAre` |
| ConfigSecrecy.FormRevealsExactly | crates/client_state/src/config_form.rs:988-1068 | The converse: two documents build the same form if and only if each field shows the same of both, each managed table has as many entries, and the same keys are boxed with values that differ at most in credentials; tables that hold none of this leave no trace |
| ConfigSecrecy.OrderOnlyMovesBoxes | crates/client_state/src/config_form.rs:988-1068 | Whatever order the tables' entries are visited in, the form is the same but for the order of boxes |
| ConfigCredentials.SecretNamesAre | crates/client_state/src/config_form.rs:1217-1233 | A name is a credential's if and only if one of the nine words stands somewhere in it, each letter in either case and a dash or an underscore for each underscore |
| ConfigCredentials.MaskedUnderName | crates/client_state/src/config_form.rs:1235-1251 | Under such a name everything but a table becomes the mask; under any other name everything but tables and arrays stays |
| ConfigCredentials.OnlyMaskUnderCredentials | crates/client_state/src/config_form.rs:1235-1251 | A masked value holds nothing but the mask under a credential's name, at any depth of tables and arrays |
| ConfigCredentials.NoBoxShowsCredentials | crates/client_state/src/config_form.rs:1020-1068 | No box of a built form shows anything but the mask under a credential's name, at any depth |
| ConfigCredentials.BoxesShowTheRest | crates/client_state/src/config_form.rs:1020-1068 | Every box shows what the document holds at each path below it that ends in another name |
| ConfigCredentials.FieldsShowTheDocument | crates/client_state/src/config_form.rs:1020-1068 | Every field of a built form shows what the document holds at its key, and nothing where it holds nothing; a credential shows as the mask |
| ConfigForms.BoxesAreWithTheirSection | crates/client_state/src/config_form.rs:1055-1067 | A boxed key is in the boxes of the first section that names its table, and of no other, or in the form's own if none does |
| ConfigSchema.ShownExactlyOnce | crates/client_state/src/config_form.rs:1020-1068 | Conservation: on the path of every value that is not a table exactly one key is counted, filled into a field or boxed |
| ConfigSchema.KnownKeyClaimed | crates/client_state/src/config_form.rs:1020-1079 | A field or managed table with a value is always reached: nothing above it is taken first |
| ConfigSorter.ConfigForm.Build | crates/client_state/src/config_form.rs:988-1010 | The built form shows the document: each field has the accepted value at its key (masked for a credential) or is absent when it cannot show it, each managed table its count, and the boxes are exactly the other keys the sorter stops at, with masked values, under the owning section |
| ConfigSorter.ConfigForm.SortTable | crates/client_state/src/config_form.rs:1012-1018 | Visiting the entries in any order sorts exactly the keys under the table and nothing else |
| ConfigSorter.ConfigForm.SortValue | crates/client_state/src/config_form.rs:1020-1068 | One value, by the form as it stands in the middle of the sort, is sorted as the whole schema says, with everything below it |
| ConfigSorter.LeadsSomewhereStill | crates/client_state/src/config_form.rs:1070-1079 | Asking the partly sorted form, from which fields may already be gone, whether a known key lies below gives the schema's answer |
| ConfigSorter.AllSorted | crates/client_state/src/config_form.rs:988-1010 | Once every key the sorter stops at was sorted, no known key of the document is left out |
| ConfigValues.MaskingHidesCredentials | crates/client_state/src/config_form.rs:1217-1251 | Two values mask to the same if and only if they differ only under credentials' names, at any depth: masking hides all of that and nothing else |
| ConfigValues.MaskingTwice | crates/client_state/src/config_form.rs:1235-1251 | Masking a masked value changes nothing |
| ConfigValues.SetKeyAccepted | crates/config/src/tree.rs:481-537 | A `set` is refused if and only if something other than a table lies on the way to its key |
| ConfigValues.SetKeyAtAndBelow | crates/config/src/tree.rs:481-537 | After a `set`, every path at or below the key holds what the new value holds there, or nothing once removed |
| ConfigValues.SetKeyAbove | crates/config/src/tree.rs:481-537 | After a `set`, tables lie on the whole way to the key |
| ConfigValues.SetKeyElsewhere | crates/config/src/tree.rs:481-537 | A `set` leaves every path that is neither on the way to its key nor below it |
| ConfigFields.TextRoundTrip | crates/client_state/src/config_form.rs:68-153 | An accepted value reads back from its text if and only if it is canonical: trimmed non-blank text, an integer in `i64`, a float, a non-empty list of options, a model list; never a credential. The library is only asked to read back this one value |
| ConfigFields.SubmittingShownText | crates/client_state/src/config_form.rs:907-946 | Submitting what a field shows changes nothing if and only if the field is unset with a default it understands, or holds a canonical value |
| ConfigFields.ParsedIsAccepted | crates/client_state/src/config_form.rs:68-153 | Whatever text parses, the value is one the field can show again, and canonical |
| ConfigFields.ChoicesRoundTrip | crates/client_state/src/config_form.rs:89-153 | A non-empty list of options reads back from its comma-joined text in order |
| ConfigFields.ParseChoices | crates/client_state/src/config_form.rs:134-144 | The loop of the list branch: every name trimmed and an option, or no value at all |
| ModelLists.EntryIs | crates/client_state/src/config_form.rs:1130-1176 | An entry reads as a choice if and only if it is the text, alone or in a table with at most a variant, of one of the three variables without a variant, or of a valid key with a valid variant or none |
| ModelLists.ModelsAre | crates/client_state/src/config_form.rs:1152-1181 | A value reads as a list if and only if it is one such entry or a non-empty array of them |
| ModelLists.WriteThenRead | crates/client_state/src/config_form.rs:1130-1210 | Reading back written choices gives them with each default variant left out if and only if the list is not empty and names no field this client does not know; otherwise nothing |
| ModelLists.ReadThenWrite | crates/client_state/src/config_form.rs:1148-1210 | Writing what was read is a normal form of the value: lists of one unwrapped, tables without need of a variant turned to strings; the form is a fixpoint and reads as the same choices |
| Identities.ModelKeyShape | crates/identity/src/lib.rs:585-690 | A valid model key is one word without brackets that is no `${...}` expression, which pins and model lists rely on |
| Identities.ModelKeyIs | crates/identity/src/lib.rs:680-690 | A text is a model key if and only if it is a provider's id, a slash and a model's id, within 512 bytes |
| Identities.ProviderModelIdIs | crates/identity/src/lib.rs:596-603 | A model's id: segments with slashes between them, none empty, without brackets, blanks and control characters, within 384 bytes |
| Identities.AgentIdIs | crates/identity/src/lib.rs:513-527 | An agent's id: words of small letters and digits with single dashes between them, within 64 characters |
| CronUnambiguous.ReadingsAreUnambiguous | crates/client_state/src/cron.rs:152-321 | Two expressions with the same reading have the same five parsed fields |
| CronUnambiguous.ReadingDecodes | crates/client_state/src/cron.rs:200-321 | A decoder recovers all five fields from the phrase of any parsed fields that have one |
| CronDecoder.ListDecodes | crates/client_state/src/cron.rs:200-218 | A listing of times, days or names (ranges too), with its commas and final "and", is read back piece by piece whatever may follow it in the phrase |
| CronNames.FieldIs | crates/client_state/src/cron.rs:152-188 | A text parses to a field if and only if it spells it, for numbers, months (from 1) and weekdays (from 0, 7 as Sunday): `*`, `*/` and a positive number, or a comma-separated list of values and dashed ranges, each value a number or the first three letters of a name in any case |
| CronNames.ValueIs | crates/client_state/src/cron.rs:159-171 | One value: the number it writes, or the place of the one name it abbreviates, counted from 1 for months |
| CronNames.FieldsAre | crates/client_state/src/cron.rs:255-264 | An expression parses if and only if it is five words between blanks that spell minutes, hours, days, months and weekdays, in this order |
| CronNames.HasReadingIff | crates/client_state/src/cron.rs:255-321 | An expression has a reading if and only if it spells fields that have words: which minutes and hours, days that are single, months from 1 to 12 and weekdays from 0 to 6 |
| CronNames.ReadingSaysWhatIsTyped | crates/client_state/src/cron.rs:255-321 | A reading says the names of the months and weekdays that were typed, by name or number, ranges too, in the order they were typed |
| CronNames.OrdinalIs | crates/client_state/src/cron.rs:240-248 | The suffix of a day by its last two digits: "th" after a 1 and a digit, else by the last digit |
| CronReadings.ParseField | crates/client_state/src/cron.rs:152-188 | The loop over the comma-separated parts gives the field that the text spells (`CronNames.FieldIs`), or nothing when one part spells no range |
| CronReadings.ParsedIsWellFormed | crates/client_state/src/cron.rs:152-188 | A parsed field has a positive step or a non-empty list of `u32` ranges, and in weekdays no 7 |
| CronReadings.FieldTextParses | crates/client_state/src/cron.rs:152-188 | Every well-formed field, names or not, is what its own numeric text parses to: the field parser misses none |
| CronSends.CreateIs | crates/client_state/src/cron.rs:773-826 | What a form creates, member by member from its text fields, and that it cannot be sent if and only if there is no such job: name and prompt without blanks, the schedule and limit the texts write, the template with the typed agent and pin, delivery for a session's job and permission mode for a new session's |
| CronSends.EditIs | crates/client_state/src/cron.rs:806-866 | What the job is after an edit: the same members a new job would have, a name, schedule or limit whose text was not changed as they were, and nothing else changed |
| CronSends.EditSendsWhatChanges | crates/client_state/src/cron.rs:828-866 | An edit sends a member only when it changes: exactly then for prompt, target, delivery and permission mode |
| CronSends.OpenedFormCreatesTheJob | crates/client_state/src/cron.rs:727-826 | A form opened on a job and sent as a new one creates the same name, prompt, limit, target and permission mode, and the job's delivery or the default |
| CronSends.PinIs | crates/client_state/src/cron.rs:604-617 | A text is taken for a pin if and only if the pin is valid and the text is its model, with `[base]` or nothing for no variant, or with the variant in brackets |
| CronSends.ScheduleIs | crates/client_state/src/cron.rs:565-586 | Which text is taken for which delay, time or expression |
| CronSends.RunsAre | crates/client_state/src/cron.rs:590-600 | Which text is taken for which run limit: none when blank, no limit from 0 down, the count up to the largest |
| CronEdits.EditAgreesWithCreate | crates/client_state/src/cron.rs:727-866 | Applying an edit to the job and opening the form again gives a form that creates the same job as the edited one if and only if the run limit of a cron schedule was not left blank and no new expression starts with the field `in` or `at`; what each of the two jobs is, `CronSends.CreateIs` and `CronSends.EditIs` say |
| CronEdits.UpdateSendableIffCreate | crates/client_state/src/cron.rs:806-866 | An edit can be sent if and only if the same form could create a job |
| CronEdits.UntouchedFormSendsNothing | crates/client_state/src/cron.rs:727-866 | A form opened on a job and sent as it is changes nothing if and only if its prompt and schedule can be sent and the job says how it is delivered |
| CronEdits.BlankedLimitComesBack | crates/client_state/src/cron.rs:828-866 | The failing family of the blank run limit: for every cron job whose edited form can be sent, the edited form asks for the default limit and the reopened one creates the same job but for the limit, which is the job's own (0 as no limit); where the form reads the expression as a delay or a time, both create the same |
| CronEdits.WordedExpressionReadsAsDelay | crates/client_state/src/cron.rs:565-586 | The failing family of worded fields: `in`, a tab and any four fields are taken as an expression, whose text is a delay afterwards |
| CronEdits.OneShotStaysOneShot | crates/client_state/src/cron.rs:727-769 | The text of a delay or a time is never read as a cron expression |
| CronForms.ScheduleRoundTrip | crates/client_state/src/cron.rs:565-586 | A typed schedule reads back from its text if and only if its first field is not `in` or `at` |
| CronForms.ModelPinRoundTrip | crates/client_state/src/cron.rs:604-617 | Every valid pin reads back from its text, though the variant is found by the brackets and `base` means none |
| CronForms.RunsRoundTrip | crates/client_state/src/cron.rs:590-600 | Every run limit reads back from its count; the count 0 reads as no limit |
| CronForms.FillUpdate | crates/client_state/src/cron.rs:828-866 | The assignments into the update, in the code's order and with its early returns, give what the declarative update names |
| OAuthSafety.TokensComeFromCodes | scripts/web-e2e/mock-oauth.py:83-139 | Over every interleaving of lock-granular steps: stored codes belong to registered clients and one of their redirects, no code is consumed twice, every token comes from a consumed code of its own with its redirect and S256 challenge, and `/mcp` lets in only such tokens |
| OAuthSafety.StepKeepsSafe | scripts/web-e2e/mock-oauth.py:83-139 | Each step of any thread keeps the safety invariant, whatever the other threads are in the middle of |
| OAuthSafety.RunsAreSafe | scripts/web-e2e/mock-oauth.py:83-139 | The invariant holds in every reachable state |
| OAuthSafety.ClientIdsNeverRepeat | scripts/web-e2e/mock-oauth.py:109-114 | No two registrations, from whatever threads, get the same client id |
| OAuthSafety.NoTokenWithoutChallenge | scripts/web-e2e/mock-oauth.py:90-126 | A code issued without a challenge is never exchanged, as no verifier hashes to the empty text |
| OAuthSafety.ExchangeGivesToken | scripts/web-e2e/mock-oauth.py:115-139 | From every reachable state a stored code, exchanged with its redirect and verifier, gives a token that `/mcp` then admits, and the code is gone |
| OAuthSafety.SignInWorks | scripts/web-e2e/mock-oauth.py:83-139 | From every reachable state the whole flow goes through: a client that registers, is authorized for one of its redirects and exchanges the code with its verifier gets a token that `/mcp` lets in |
| OAuthSafety.AuthorizeGivesCode | scripts/web-e2e/mock-oauth.py:83-92 | A registered client with one of its redirects gets a code for both and for its challenge |
| OAuthSafety.AdmitsBearers | scripts/web-e2e/mock-oauth.py:136-139 | `/mcp` lets in a header if and only if it is `Bearer ` and a stored token |
| OAuthHandlers.Server.Register | scripts/web-e2e/mock-oauth.py:109-114 | Takes the registering step of the safe world; the id it answers is new, and names the registration from then on |
| OAuthHandlers.Server.FindClient | scripts/web-e2e/mock-oauth.py:83-85 | Finds a client if and only if one was ever registered under the id; the thread then holds what was found |
| OAuthHandlers.Server.StoreCode | scripts/web-e2e/mock-oauth.py:90-92 | Takes the storing step; the code stored is for a registered client and one of its redirects, though the check came under an earlier lock |
| OAuthHandlers.Server.PopCode | scripts/web-e2e/mock-oauth.py:120-121 | Takes the popping step; what it answers was issued for the code, which was never consumed before and is gone now |
| OAuthHandlers.Server.AddToken | scripts/web-e2e/mock-oauth.py:127-129 | Takes the adding step; the token is new and let in from then on |
| OAuthHandlers.Server.LetsIn | scripts/web-e2e/mock-oauth.py:136-139 | Lets a request in if and only if its token was answered to an exchange before |
| ModelDrafts.TimerPublishes | crates/client_state/src/model_draft.rs:19-43 | A timer publishes if and only if the number of picks since its own, local or foreign, is a multiple of 2^64, its session is viewed and there is a draft; what goes out is then the draft |
| ModelDrafts.OnlyTheLatestPickPublishes | crates/tui/src/ui/app/agents.rs:735-764 | With fewer than 2^64 picks a timer publishes only while no pick of anyone came after its own, and publishes its own pick's value if and only if in addition its session is viewed and the draft was not replaced with another since the pick |
| ModelDrafts.StalePickPublishesAfterWrap | crates/client_state/src/model_draft.rs:30-37 | Without that bound it fails: exactly 2^64 picks later a stale timer is current again |
| ModelDrafts.PickThenWrap | crates/client_state/src/model_draft.rs:30-42 | Such a run exists: a pick, and then 2^64 of other clients |
| ModelDrafts.EachPickPublishesOnce | crates/tui/src/ui/app/agents.rs:735-764 | Over every run, each local pick is published at most once |
| ModelDrafts.PublishedIsWhatWentOut | crates/tui/src/ui/app/agents.rs:753-764 | What a run has published is exactly what went out as the timer of a then latest pick fired: the pick's value, or what had replaced the draft since |
| ModelDrafts.PublishesPicks | crates/tui/src/ui/app/agents.rs:735-764 | Every publication is of a local pick, and has that pick's value if and only if the draft was not replaced with another between the pick and its timer |
| ModelDrafts.SettledDraftIsPublished | crates/client_state/src/model_draft.rs:1-9 | Once all timers have gone off with no foreign pick after the last local one, the last publication is the final draft if and only if the session was viewed when the last timer fired and the draft has not become another since; so it is when the draft was not replaced after the pick |
| ModelDrafts.DraftPublish.Schedule | crates/client_state/src/model_draft.rs:29-32 | Answers the count of picks so far as far as a `u64` goes |
| ModelDrafts.DraftPublish.YieldToForeignPick | crates/client_state/src/model_draft.rs:39-42 | Counts a foreign pick among the picks |
| ModelDrafts.DraftPublish.IsCurrent | crates/client_state/src/model_draft.rs:34-37 | Says whether the number of picks made since the one that carries the generation is a multiple of 2^64; below that many, whether none was made |
| Exposure.ChangeText | crates/client_state/src/exposure.rs:81-137 | The row is absent if and only if both sides make the same choices (one rule per key after); otherwise it names every changed key, groups before skills, with who did it |
| Exposure.ChangesAre | crates/client_state/src/exposure.rs:86-127 | A change is listed if and only if it is of a choice made after that was not made before, or of a key no longer chosen for |
| Exposure.ChangesReplay | crates/client_state/src/exposure.rs:86-127 | Replaying the listed changes on the choices before gives the choices after |
| Exposure.NoChangesIffSameChoices | crates/client_state/src/exposure.rs:86-130 | Nothing is listed if and only if both sides make the same choices |
| Exposure.ListChanges | crates/client_state/src/exposure.rs:86-127 | The two loops over the rules of one kind list what differs, in order |
| Exposure.WithMakesOneChoice | crates/client_state/src/exposure.rs:28-67 | Choosing sets or drops its own key's choice and no other key's rule |
| Exposure.WithKeepsOneRule | crates/client_state/src/exposure.rs:28-67 | At most one rule of the key is left even if there were several, and one rule per key stays one rule per key |
| Exposure.LastChoiceWins | crates/client_state/src/exposure.rs:28-67 | A second choice for a key leaves what it alone would have left |
| Exposure.WithGroup | crates/client_state/src/exposure.rs:28-45 | The group's choice becomes the state, or none when the layers below give it; skills and other groups stay |
| Exposure.WithSkill | crates/client_state/src/exposure.rs:50-67 | The same for a skill; a name that is no skill's only loses its choice |
| Exposure.FromProject | crates/client_state/src/exposure.rs:13-22 | The copy makes the same choices with every rule marked |
| AcpAgents.UnhostedPlace | crates/client_state/src/acp.rs:55-101 | Where an agent without a host runs, from its offers: on the first attached runtime whose offer can run it, else unavailable for the first attached one that offers it, else on one of all that do |
| AcpAgents.HostedPlace | crates/client_state/src/acp.rs:55-85 | With a host: there, if the first offer of that runtime can run it, whatever is attached |
| AcpAgents.DefaultIs | crates/client_state/src/acp.rs:106-122 | The default: the first attached runtime that can run the agent, else the first offer that can, else none |
| AcpAgents.OwnAgentsArePickable | crates/client_state/src/acp.rs:55-202 | The daemon's own agents are placed nowhere and can be picked if and only if they run as roots |
| AcpAgents.PickableIffPlacedCanRun | crates/client_state/src/acp.rs:55-101 | With distinct offering runtimes, an ACP agent that runs as a root is pickable if and only if the runtime it is placed on can run it, and fixing that runtime as the host then runs it there |
| AcpAgents.PlacementIsDefault | crates/client_state/src/acp.rs:55-122 | Without a host, where an agent runs is where it runs by default |
| AcpAgents.DefaultIsAvailable | crates/client_state/src/acp.rs:106-122 | The default runtime's own offer can run the agent |
| AcpAgents.PickedCanRunIff | crates/client_state/src/acp.rs:195-202 | For any offers, distinct or not: whatever is attached and whatever the host, pickable means placed where it can run, if and only if the first offer that can run the agent is not hidden by another of its runtime |
| AcpAgents.RunsByDefaultIff | crates/client_state/src/acp.rs:55-122 | For any offers: placement and default agree for every attach list if and only if no runtime hides an offer that can run the agent, or no runtime finds one that can |
| AcpAgents.TwoOffersOfOneRuntime | crates/client_state/src/acp.rs:195-202 | The smallest agent outside of that: offered twice by one runtime, pickable and placed where it cannot run |
| AcpAgents.DraftOptionsStay | crates/client_state/src/acp.rs:477-486 | Fixing the runtime a draft is placed on as its host leaves its options as they are, and making the choices again changes none |
| AcpAgents.WithChoices | crates/client_state/src/acp.rs:454-471 | The loop over the choices, on a copy of the options |
| AcpAgents.EachTakesItsLastChoice | crates/client_state/src/acp.rs:454-471 | With distinct ids each option ends with the last choice it lists, else its own value, whatever else was chosen |
| AcpAgents.ChoicesAreIdempotent | crates/client_state/src/acp.rs:454-471 | Applying the same choices again changes nothing |
| AcpAgents.DraftAgentOptions.ForAgent | crates/client_state/src/acp.rs:532-538 | Answers what the latest unbroken run of choices for the agent comes to, over any history |
| AcpAgents.DraftAgentOptions.Choose | crates/client_state/src/acp.rs:543-559 | Keeps the fields a refinement of the history of choices |
| AcpAgents.DraftAgentOptions.Clear | crates/client_state/src/acp.rs:562-564 | Ends every run of choices |
| AcpAgents.MergedIsLastOfEach | crates/client_state/src/acp.rs:543-559 | A draft's choices are exactly one entry per option of the run, each with its last value |
| ShortNames.ShortIsSuffix | crates/client_state/src/call_machines.rs:198-231 | A short name is the name from its start or from just after a separator, at a character boundary, and not empty |
| ShortNames.CutsTheLongestSharedPrefix | crates/client_state/src/call_machines.rs:199-217 | Nothing up to a separator that another name starts with is left on a cut |
| ShortNames.TakenCutsDiffer | crates/client_state/src/call_machines.rs:218-231 | Two names that take their cut never share it |
| ShortNames.ShortsCollideIff | crates/client_state/src/call_machines.rs:218-231 | Two shorts are equal if and only if one of the names stays whole, and is what is left of the other, and of no third, after the most it shares with another name; said with the names and what they share alone |
| ShortNames.ShortsDiffer | crates/client_state/src/call_machines.rs:195-231 | All shorts differ when no name is another's ending after a separator |
| ShortNames.ShortsCanCollide | crates/client_state/src/call_machines.rs:195-231 | Without that the promise of the comment fails: `a-`, `a-b`, `z-a-`, `z-q` |
| ShortNames.MostSharedIsBoundary | crates/client_state/src/call_machines.rs:199-217 | The byte at which a name is cut is a character boundary, for every UTF-8 name |
| CutBoundaries.CutIsLastKept | crates/client_state/src/cut_points.rs:151-164 | From the log's events alone: there is a cut if and only if the block is the last that a finished run shows, and it is the last sequence to which the log can be kept without anything that starts after the run's last finish |
| CutBoundaries.BoundariesAre | crates/client_state/src/reduce.rs:2495-2512 | A sequence is a boundary if and only if a run started there, something arrived there with no run open, or a compaction with no run open read up to just before it (or comes there itself); a run is open if the last event that starts or finishes one starts it |
| CutBoundaries.CutAfterEvent | crates/client_state/src/cut_points.rs:145-164 | Where a cut goes with any one more event, case by case: another block of the run, another finish, a start, a compaction outside any run that read past the finish, anything else |
| CutBoundaries.RepliesAre | crates/client_state/src/reduce.rs:1320-1339 | The fold holds a block's reply complete if and only if the log shows it last for a run, the run shows it last, and the run finished |
| CutPoints.CutIsGreatest | crates/client_state/src/cut_points.rs:151-164 | There is a cut if and only if the block is the last of a finished run; it is the greatest sequence from the finish on with no boundary after the finish and up to it |
| CutPoints.RevertedReplyIsAtTheTip | crates/client_state/src/cut_points.rs:137-164 | Truncating the log at the cut and folding it again gives the same cut, now at the tip |
| HistoryCuts.UserMessageCutsAtTheReply | crates/client_state/src/cut_points.rs:1-11 | Cutting before a user message cuts, with the daemon's own rule, at the end of the reply before it if and only if all there is between the two is runs that hold nothing but their start |
| HistoryCuts.OwnRunCutsAtTheReply | crates/client_state/src/cut_points.rs:72-74 | For the message of an open run, with runs one at a time: exactly when its run is the first thing that starts after the reply, and has done nothing before the message |
| HistoryCuts.MessageFollowsItsRun | crates/client_state/src/cut_points.rs:72-74 | The sequence before the message alone is not the reply's end, as the message's run has started by then |
| HistoryCuts.ArrivalStaysBeforeTheMessage | crates/client_state/src/cut_points.rs:1-11 | Not so with a producer's message in between: the cut before the user's message keeps it, the cut at the reply does not |
| HistoryCuts.HistoryCutIsGreatest | crates/engine/src/runtime/sessions.rs:1289-1327 | The daemon's cut is the greatest sequence, up to the one asked for, that leaves no run holding nothing but its start |
| HistoryCuts.EmptyRunsAre | crates/engine/src/runtime/sessions.rs:1289-1327 | Said by the events: the log ends in an empty run if and only if some run after the first event has started and since then no run started and it neither finished nor did anything |
| HistoryCuts.ReplyCutStands | crates/engine/src/runtime/sessions.rs:1289-1327 | Asked to cut at the end of a reply whose run had closed, the daemon cuts just there, so a revert to a reply truncates at the reply's cut |
| HistoryCuts.FindHistoryCut | crates/engine/src/runtime/sessions.rs:1293-1327 | The nested loops end with that cut |
| CutPoints.EveryLogIsNoted | crates/client_state/src/reduce.rs:2490-2512 | The fold of every log keeps boundaries increasing and within the log, and finishes at their own events |
| CutPoints.PrefixKeepsReply | crates/client_state/src/reduce.rs:1290-1339 | Truncating anywhere from the finish on leaves the reply complete and adds no boundary |
| CutPoints.Fold | crates/client_state/src/reduce.rs:2054-2076 | The loop over the log gives the fold |
| CutPoints.NextFrom | crates/client_state/src/cut_points.rs:157-160 | The least boundary from a sequence on, or none |
| InlineScripts.InlineScriptHashes | crates/web_assets/build.rs:91-113 | For every page the loop ends with exactly the hashes of the bodies of its complete elements without `src=`, in order |
| InlineScripts.AssembledPageIsRead | crates/web_assets/build.rs:91-113 | Any page put together from text without `<script`, complete elements and a rest without one is read as exactly those |
| InlineScripts.ReadPageIsWhole | crates/web_assets/build.rs:91-113 | Every text at all is such a page: what is read puts together to the text again |
| InlineScripts.PolicyListsTheScripts | crates/web_assets/build.rs:91-113 | The policy lists the inline scripts a page was put together from, no more and no fewer |
| ScenarioPlan.Plan | scripts/web-e2e/scenarios.py:7371-7389 | Fails with the unknown names exactly when there are any; otherwise the groups hold exactly what a path of needs reaches from the request, or from the whole suite when it is empty |
| ScenarioPlan.Choose | scripts/web-e2e/scenarios.py:7378-7383 | The worklist ends, cycles included, with exactly the names reachable through needs, whatever order it starts in |
| ScenarioPlan.NeededIsLeast | scripts/web-e2e/scenarios.py:7378-7383 | Being reachable is being in the least set with the request that is closed under needs |
| ScenarioPlan.GroupsPartition | scripts/web-e2e/scenarios.py:7384-7389 | Every chosen scenario is in one place of one group, and nothing else is |
| ScenarioPlan.GroupsAreTheirMembers | scripts/web-e2e/scenarios.py:7384-7389 | Each group lists all its chosen scenarios in suite order, no group is empty, and groups come as they first come up |

## Left out

- ConfigValues.SetKeyAccepted: models `set` on the decoded tree; the text layer (comments, inline and dotted tables, the empty key, invalid UTF-8, values TOML cannot hold) is not modelled, and a table created on the way counts as a table, where the file keeps it implicit.
- ConfigSorter.ConfigForm.SortTable: the key is passed by value instead of pushed to and popped from one stack, so that stack's restoration is not modelled; an object is a map, so the order of its entries is arbitrary.
- ConfigFields.TextRoundTrip: floats are reals; how numbers and JSON are written is a parameter with the assumed inverse, so not-a-number and rounding are not modelled beyond a parse that can fail.
- CronEdits.EditAgreesWithCreate: the update is applied to the job member by member, as the client names it; what the daemon adds (turning a delay into a time, refusing other kinds) is not part of the model.
- CronForms.FillUpdate: the members no form sets (`enabled`, `max_consecutive_failures`) are absent.
- OAuthSafety.TokensComeFromCodes: does not say that the token goes to the client the code was issued to, because `/token` does not read `client_id`.
- OAuthHandlers.Server.PopCode: the `refresh_token` grant, refused before the tables are touched, is not a step of the model.
- ModelDrafts.PublishesPicks: a draft for a new session starts no timer and is no pick of the model; why the draft is replaced is not modelled, and the caller's network call is the publication.
- ShortNames.ShortsDiffer: goes one way, with a condition that is easier to check; `ShortNames.ShortsCollideIff` is the exact one.
- CutPoints.PrefixKeepsReply: a block taken out of the transcript again is not modelled, and one moved to the end is a `BlockShown` of the same run.
- HistoryCuts.FindHistoryCut: what a revert or fork does besides choosing the cut (refusals of ACP agents, workspaces, the new session) is not modelled.
- ScenarioPlan.Plan: a suite that needs an unknown scenario is excluded, as the program stops on it.
- Which error message a failing form, schedule or pin gives, beyond that it fails and, for drafts, why.
- Labels, help and the literal tables of the Configuration form, and its sections' order on screen.
- `MachineLabels`, `work_row` and the hash of `call_machines.rs`: display of calls around the short names.
- `groups_off` and `step_group_state` of `exposure.rs`: single-branch classification.
- `is_foreign_model_pick`: a comparison of origins; the protocol takes its answer as an event.
- `compaction_point` and `reply_text` of `cut_points.rs`: searches of the transcript.
- The metadata documents, MCP replies and HTTP of `mock-oauth.py`, and the browser scenarios themselves: I/O.
- `schedule_text` with a zone, countdowns, detail lines and other display text of `cron.rs`; the form itself prints times without a zone's help.
