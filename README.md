# Decidim notifications, initiatives, questions and areas — a Dafny model

This project models a notification subsystem and a set of decision rules and
validators from Decidim, the participatory-democracy platform. Each is stated
over plain records, and properties of each are proved.

- **Event publisher job.** The gate decides whether an application event is
  dispatched at all. It looks at `force_send` and at the publication state of
  the resource, its participatory space and its component. The router then
  enqueues the in-app notification job and, for high-priority events or when
  batching is off, the e-mail job.
- **Batch e-mail digests.** The generator collects the unsent, batch-priority,
  unexpired notifications. It sends each existing user who wants e-mail one
  digest of their most recent ones, then marks exactly those as sent. Its
  behaviour is the one its specification file fixes. A `Generator` class holds
  the notification store, the user accounts and the outbox.
- **Initiative progress mails.** One mail goes to every follower, then to every
  approved committee member, then to the author. The author is skipped in the
  first two passes, and nobody is de-duplicated.
- **Initiatives.** The rules covered are:
  - the administrators' answer form: states, signature dates and answer date;
  - the signature types and presence validations of initiative types;
  - the `before_update` hook on types, which adds a global scope;
  - the public search: base query, text, type, author, scope, area and the
    states union, with the id-list normalisation;
  - the view helper: state badge, popularity buckets and authorization
    handlers;
  - the medium card: state class and comment count.
- **Questions.** The administrators' update command is modelled as a method on
  a `Question` class. It writes with or without a new version. The endorsement
  helpers choose buttons, classes and HTTP methods.
- **Areas.** The administrators' area form checks name and organization
  presence, colour format and name uniqueness.

Modules:

- `Wrappers` holds `Option` and `Result`.
- `RubyCore` holds the Ruby core methods the code relies on: `uniq`, `select`,
  `delete`, `split`, `to_i`, `blank?` and `Integer#to_s`.
- There is one module per source file.

Time ("now", "today") is a parameter. `perform_later` and `deliver_later` are
appends to an output sequence. An SQL query is the sequence of rows it would
return, and each `where` selects from it.

The code and its comments disagree in one place. The comment above
`high_priority?` says a blank priority is high. The code defaults a missing
priority to `:low`, which is not high. The model follows the code
(`EventPublisher.HighPriorityIff`).

## Model

| member | source | states |
|---|---|---|
| EventPublisher.ComponentOf | decidim-core/app/jobs/decidim/event_publisher_job.rb:34-38 | a HasComponent resource gives its component, a Component resource gives itself, anything else (or no resource) gives nil |
| EventPublisher.SpaceOf | decidim-core/app/jobs/decidim/event_publisher_job.rb:40-44 | a space-resourceable resource is its own space; otherwise the space of its component, nil without one |
| EventPublisher.NotifiableByKind | decidim-core/app/jobs/decidim/event_publisher_job.rb:26-32 | for every kind of resource, not notifiable iff the resource, its space or its component is unpublished, read off the resource's own fields |
| EventPublisher.NilResourceNotifiable | decidim-core/app/jobs/decidim/event_publisher_job.rb:26-32 | an event without a resource passes the gate |
| EventPublisher.Notifiable | decidim-core/app/jobs/decidim/event_publisher_job.rb:26-32 | `notifiable?`; specified by `NotifiableByKind` and `NilResourceNotifiable` |
| EventPublisher.PriorityLevel | decidim-core/app/jobs/decidim/event_publisher_job.rb:65 | the `:priority` entry of `extra`, `:low` when there is none |
| EventPublisher.HighPriorityIff | decidim-core/app/jobs/decidim/event_publisher_job.rb:64-69 | high iff the priority entry is the symbol `:high` and `:high` is a known level; absent, unknown or the string "high" are not high |
| EventPublisher.HighPriority | decidim-core/app/jobs/decidim/event_publisher_job.rb:64-69 | `high_priority?`; specified by `HighPriorityIff` |
| EventPublisher.JobFor | decidim-core/app/jobs/decidim/event_publisher_job.rb:50-57 | the job carries the event name and exactly the data's event class, resource, followers, affected users and extra |
| EventPublisher.SendEvent | decidim-core/app/jobs/decidim/event_publisher_job.rb:47-58 | a blank event name enqueues nothing; otherwise exactly one job of the class is appended |
| EventPublisher.Perform | decidim-core/app/jobs/decidim/event_publisher_job.rb:9-16 | without force_send an unnotifiable event enqueues nothing; past the gate the in-app job comes first; the e-mail job follows iff the priority is high or batching is off; a nil `extra` raises after the in-app job (if the name is not blank) and before the e-mail job; every job carries the data |
| BatchNotifications.Events | decidim-core/spec/services/decidim/batch_email_notifications_generator_spec.rb:105-138 | exactly the stored notifications that are unsent, batch priority and unexpired, with no cap |
| BatchNotifications.EventsReturnsAllPending | decidim-core/spec/services/decidim/batch_email_notifications_generator_spec.rb:109-112 | when every stored notification is pending, all of them are returned, in order |
| BatchNotifications.ExpiredStaysExcluded | decidim-core/spec/services/decidim/batch_email_notifications_generator_spec.rb:114-123 | a notification older than the expiry window is not collected, now or at any later time |
| BatchNotifications.CandidatesFor | decidim-core/spec/services/decidim/batch_email_notifications_generator_spec.rb:140-151 | exactly the pending notifications of the user, none of another user's |
| BatchNotifications.SortByRecency | decidim-core/spec/services/decidim/batch_email_notifications_generator_spec.rb:148 | a newest-first permutation of its input |
| BatchNotifications.InsertByRecency | decidim-core/spec/services/decidim/batch_email_notifications_generator_spec.rb:148 | inserting into a newest-first sequence keeps it newest first and adds exactly the element |
| BatchNotifications.EventsForSpec | decidim-core/spec/services/decidim/batch_email_notifications_generator_spec.rb:140-151 | `events_for` holds min(cap, candidates) of the user's pending notifications, newest first, and none left out is newer than one taken |
| BatchNotifications.EventsFor | decidim-core/spec/services/decidim/batch_email_notifications_generator_spec.rb:140-151 | `events_for`; specified by `EventsForSpec` |
| BatchNotifications.PendingUserIds | decidim-core/spec/services/decidim/batch_email_notifications_generator_spec.rb:154-162 | the distinct ids of the existing users with at least one pending notification |
| BatchNotifications.Users | decidim-core/spec/services/decidim/batch_email_notifications_generator_spec.rb:154-162 | the existing users with pending notifications, each exactly once |
| BatchNotifications.SerializeEvent | decidim-core/spec/services/decidim/batch_email_notifications_generator_spec.rb:11-22 | the entry carries the notification's resource, event class and name, user, extra, priority, role and age |
| BatchNotifications.SerializedEvents | decidim-core/spec/services/decidim/batch_email_notifications_generator_spec.rb:164-169 | one serialized entry per notification, in order |
| BatchNotifications.PlannedDigestsContents | decidim-core/spec/services/decidim/batch_email_notifications_generator_spec.rb:46-56 | every digest goes to a listed user who wants e-mail and holds that user's `events_for`, serialized |
| BatchNotifications.PlannedDigests | decidim-core/spec/services/decidim/batch_email_notifications_generator_spec.rb:46-56 | the digests `generate` sends; specified by `PlannedDigestsContents`, `OneDigestPerEligibleUser` and `PlannedRecipients` |
| BatchNotifications.IdsOf | decidim-core/spec/services/decidim/batch_email_notifications_generator_spec.rb:171-176 | exactly the ids of the given notifications |
| BatchNotifications.SelectedIdsMembers | decidim-core/spec/services/decidim/batch_email_notifications_generator_spec.rb:58-61 | an id is marked iff it belongs to the `events_for` of a listed user who wants e-mail |
| BatchNotifications.SelectedIds | decidim-core/spec/services/decidim/batch_email_notifications_generator_spec.rb:58-61 | the notifications `generate` marks; specified by `SelectedIdsMembers` and `MarkedExactlyTheDigest` |
| BatchNotifications.MarkedSent | decidim-core/spec/services/decidim/batch_email_notifications_generator_spec.rb:171-176 | `sent_at` is set on the notifications with the given ids and on no other; the store keeps its length and order |
| BatchNotifications.MarkingOthersKeepsCandidates | decidim-core/spec/services/decidim/batch_email_notifications_generator_spec.rb:140-151 | marking other users' notifications leaves a user's candidates unchanged |
| BatchNotifications.SelectedAreOwned | decidim-core/spec/services/decidim/batch_email_notifications_generator_spec.rb:58-61 | every marked notification is pending, is in its owner's `events_for`, and its owner receives a digest |
| BatchNotifications.OnlyPendingAreMarked | decidim-core/spec/services/decidim/batch_email_notifications_generator_spec.rb:27-41 | sent, now-priority and expired notifications are left exactly as they were |
| BatchNotifications.InactiveUsersUntouched | decidim-core/spec/services/decidim/batch_email_notifications_generator_spec.rb:63-90 | the notifications of a deleted user or one who does not want e-mail are never marked |
| BatchNotifications.MarkedExactlyTheDigest | decidim-core/spec/services/decidim/batch_email_notifications_generator_spec.rb:58-61 | for a user who gets a digest, a notification of theirs goes from unsent to sent iff it is in their `events_for` |
| BatchNotifications.OneDigestPerEligibleUser | decidim-core/spec/services/decidim/batch_email_notifications_generator_spec.rb:43-91 | exactly one digest for every existing user who wants e-mail and has pending notifications, none for anybody else |
| BatchNotifications.PlannedRecipients | decidim-core/spec/services/decidim/batch_email_notifications_generator_spec.rb:63-72 | the recipients are distinct and are exactly the listed users who want e-mail |
| BatchNotifications.NoEventsNoDigest | decidim-core/spec/services/decidim/batch_email_notifications_generator_spec.rb:93-102 | with no pending notification there is no digest and nothing is marked |
| BatchNotifications.MarkedNeverCollectedAgain | decidim-core/spec/services/decidim/batch_email_notifications_generator_spec.rb:125-136 | a marked notification is never collected by a later run |
| BatchNotifications.MarkedTwice | decidim-core/spec/services/decidim/batch_email_notifications_generator_spec.rb:171-176 | marking in two steps equals marking the union |
| BatchNotifications.GenerateStep | decidim-core/spec/services/decidim/batch_email_notifications_generator_spec.rb:24-61 | one loop turn: a user's `events_for` is not disturbed by earlier markings, and the turn extends the planned digests and markings |
| BatchNotifications.Generator.constructor | decidim-core/spec/services/decidim/batch_email_notifications_generator_spec.rb:7 | a generator over the store and accounts, with an empty outbox |
| BatchNotifications.Generator.MarkAsSent | decidim-core/spec/services/decidim/batch_email_notifications_generator_spec.rb:171-176 | the new store is the old one with exactly the given notifications marked sent |
| BatchNotifications.Generator.Deliver | decidim-core/spec/services/decidim/batch_email_notifications_generator_spec.rb:46-72 | a user who wants e-mail gets one digest of their `events_for`, which is then marked; anybody else changes nothing |
| BatchNotifications.Generator.DeliverAll | decidim-core/spec/services/decidim/batch_email_notifications_generator_spec.rb:24-103 | the outbox gains the planned digests in order, and the store is marked at exactly the planned ids |
| BatchNotifications.Generator.Generate | decidim-core/spec/services/decidim/batch_email_notifications_generator_spec.rb:24-103 | the digests planned for `users` are sent and exactly their notifications are marked |
| ProgressNotifier.ApprovedUsers | decidim-initiatives/app/services/decidim/initiatives/progress_notifier.rb:26 | the users of exactly the approved committee members |
| ProgressNotifier.NotAuthor | decidim-initiatives/app/services/decidim/initiatives/progress_notifier.rb:19 | the author is removed and everybody else is kept |
| ProgressNotifier.Mails | decidim-initiatives/app/services/decidim/initiatives/progress_notifier.rb:20-22 | one progress mail per recipient, in order |
| ProgressNotifier.Notify | decidim-initiatives/app/services/decidim/initiatives/progress_notifier.rb:17-37 | the mails sent are those for the followers minus the author, then the approved members minus the author, then the author |
| ProgressNotifier.CommitteeStep | decidim-initiatives/app/services/decidim/initiatives/progress_notifier.rb:26-32 | one committee turn adds the member's user iff the member is approved and is not the author |
| ProgressNotifier.AuthorMailedOnceLast | decidim-initiatives/app/services/decidim/initiatives/progress_notifier.rb:18-36 | the author gets exactly one mail, and it is the last |
| ProgressNotifier.ProgressCount | decidim-initiatives/app/services/decidim/initiatives/progress_notifier.rb:17-37 | mails = followers who are not the author + approved members who are not the author + 1 |
| ProgressNotifier.NoDeduplication | decidim-initiatives/app/services/decidim/initiatives/progress_notifier.rb:18-32 | anybody but the author gets as many mails as the times they follow plus the times they are an approved member |
| ProgressNotifier.ProgressOrder | decidim-initiatives/app/services/decidim/initiatives/progress_notifier.rb:17-37 | the mails come in three runs: followers, committee, author |
| InitiativeAnswerForm.UniqStates | decidim-initiatives/app/forms/decidim/initiatives/admin/initiative_answer_form.rb:37-39 | every automatic and manual state, each exactly once |
| InitiativeAnswerForm.StateUpdatable | decidim-initiatives/app/forms/decidim/initiatives/admin/initiative_answer_form.rb:33-35 | `state_updatable?`; specified by `AnswerDateAllowedRule` and `StateValidation` |
| InitiativeAnswerForm.SignatureDatesRequired | decidim-initiatives/app/forms/decidim/initiatives/admin/initiative_answer_form.rb:29-31 | `signature_dates_required?` through `check_state`; specified by `AnswerDateAllowedRule` and `ValidIffAcceptable` |
| InitiativeAnswerForm.AnswerDateAllowed | decidim-initiatives/app/forms/decidim/initiatives/admin/initiative_answer_form.rb:45-49 | `answer_date_allowed?`; specified by `AnswerDateAllowedRule` |
| InitiativeAnswerForm.StateValidation | decidim-initiatives/app/forms/decidim/initiatives/admin/initiative_answer_form.rb:51-54 | no error iff the state is a known one and the initiative is updatable or the state is unchanged; at most two `:invalid` errors |
| InitiativeAnswerForm.Validate | decidim-initiatives/app/forms/decidim/initiatives/admin/initiative_answer_form.rb:20-27 | raises iff the answer date is allowed but missing; otherwise the errors start with those of every earlier validation |
| InitiativeAnswerForm.ValidIffAcceptable | decidim-initiatives/app/forms/decidim/initiatives/admin/initiative_answer_form.rb:20-58 | valid iff: signature dates present when required, end after start, state present, known and allowed, answer date present and not after today when allowed |
| InitiativeAnswerForm.AnswerDateAllowedRule | decidim-initiatives/app/forms/decidim/initiatives/admin/initiative_answer_form.rb:29-49 | no answer date for "published"; otherwise allowed iff the state is updatable; signature dates are required iff the state is updatable, both iff the current state is manual |
| InitiativeAnswerForm.StateAlwaysRequired | decidim-initiatives/app/forms/decidim/initiatives/admin/initiative_answer_form.rb:24 | a blank state always yields the state-blank error |
| InitiativeAnswerForm.MissingAnswerDateRaises | decidim-initiatives/app/forms/decidim/initiatives/admin/initiative_answer_form.rb:56-58 | with Decidim's state lists, a published initiative submitted as "discarded" with both signature dates and no answer date makes the validation raise |
| InitiativeAnswerForm.ValidateCorrected | decidim-initiatives/app/forms/decidim/initiatives/admin/initiative_answer_form.rb:26-27 | never raises, reports a missing answer date by its presence check, and agrees with the original wherever that does not raise |
| InitiativeAnswerForm.CorrectedValidIffAcceptable | decidim-initiatives/app/forms/decidim/initiatives/admin/initiative_answer_form.rb:20-58 | the corrected validation accepts exactly the acceptable forms |
| InitiativesType.AllowedSignatureTypes | decidim-initiatives/app/models/decidim/initiatives_type.rb:31-35 | "any" allows all three names; any other type allows only its own name (the empty string for nil); never empty |
| InitiativesType.GlobalScopeFor | decidim-initiatives/app/models/decidim/initiatives_type.rb:55-62 | the saved scope is the global one, belongs to the type and requires the sum of the existing scopes' supports |
| InitiativesType.HookFiresAgain | decidim-initiatives/app/models/decidim/initiatives_type.rb:51-53 | after the hook has added the global scope, the condition as written still holds, and the next global scope requires twice the supports |
| InitiativesType.MissingGlobalScope | decidim-initiatives/app/models/decidim/initiatives_type.rb:51-53 | `missing_global_scope?`; specified by `HookFiresAgain` and `InitiativesType.BeforeUpdate` |
| InitiativesType.IntendedHookFiresOnce | decidim-initiatives/app/models/decidim/initiatives_type.rb:51-62 | with the intended condition, the hook no longer fires once the global scope is added |
| InitiativesType.Validate | decidim-initiatives/app/models/decidim/initiatives_type.rb:24-25 | one blank error for each of the signature type, title and description that is missing; valid iff all three are present |
| InitiativesType.InitiativesType.constructor | decidim-initiatives/app/models/decidim/initiatives_type.rb:22-29 | a type with its given fields and scopes |
| InitiativesType.InitiativesType.UpdateGlobalScope | decidim-initiatives/app/models/decidim/initiatives_type.rb:55-62 | exactly one scope is appended, the global one with the total supports; the existing scopes are unchanged |
| InitiativesType.InitiativesType.BeforeUpdate | decidim-initiatives/app/models/decidim/initiatives_type.rb:29 | the scope is appended iff `missing_global_scope?` holds, and afterwards it still holds |
| InitiativesType.InitiativesType.BeforeUpdateCorrected | decidim-initiatives/app/models/decidim/initiatives_type.rb:29 | with the intended condition the global scope is appended once, and afterwards the type is not missing it |
| InitiativeSearch.BaseQuery | decidim-initiatives/app/services/decidim/initiatives/initiative_search.rb:16-23 | exactly the published initiatives of the organization that are not created or validating and whose author exists |
| InitiativeSearch.NoOrganizationNothingFound | decidim-initiatives/app/services/decidim/initiatives/initiative_search.rb:20 | without an organization the base query is empty |
| InitiativeSearch.SearchText | decidim-initiatives/app/services/decidim/initiatives/initiative_search.rb:26-45 | exactly the initiatives whose title, description, id, or author name or nickname contains the text |
| InitiativeSearch.EmptyTextFindsAll | decidim-initiatives/app/services/decidim/initiatives/initiative_search.rb:37 | an empty text keeps the whole query, in order |
| InitiativeSearch.IdTextFindsInitiative | decidim-initiatives/app/services/decidim/initiatives/initiative_search.rb:37 | searching for an initiative's id finds it |
| InitiativeSearch.IdListOfScalar | decidim-initiatives/app/services/decidim/initiatives/initiative_search.rb:119-126 | a scalar becomes a one-element list |
| InitiativeSearch.IdListOfList | decidim-initiatives/app/services/decidim/initiatives/initiative_search.rb:119-126 | a list is flattened |
| InitiativeSearch.IdList | decidim-initiatives/app/services/decidim/initiatives/initiative_search.rb:119-126 | `[x].flatten`; specified by `IdListOfScalar`, `IdListOfList` and `FlattenFlat` |
| InitiativeSearch.FlattenAllAppend | decidim-initiatives/app/services/decidim/initiatives/initiative_search.rb:120 | flattening is additive over concatenation |
| InitiativeSearch.FlattenFlat | decidim-initiatives/app/services/decidim/initiatives/initiative_search.rb:119-126 | a list of plain values comes back as it is |
| InitiativeSearch.FlattenAllMembers | decidim-initiatives/app/services/decidim/initiatives/initiative_search.rb:131 | an id is in a flattened list iff it is in the flattening of one of its elements |
| InitiativeSearch.Fragments | decidim-initiatives/app/services/decidim/initiatives/initiative_search.rb:131 | exactly the `_`-fragments of one string id, as non-nil ids |
| InitiativeSearch.SplitFlat | decidim-initiatives/app/services/decidim/initiatives/initiative_search.rb:131 | ActiveSupport's `Array#split("_")` then `flatten`: exactly the flattened ids of the elements other than "_" |
| InitiativeSearch.ItemIds | decidim-initiatives/app/services/decidim/initiatives/initiative_search.rb:131 | a nil element raises NoMethodError; a string gives its `_`-fragments; a nested list gives its items split at "_" elements and flattened, nils included |
| InitiativeSearch.ItemsIds | decidim-initiatives/app/services/decidim/initiatives/initiative_search.rb:131 | raises iff some element is nil; otherwise exactly the ids of all elements |
| InitiativeSearch.AreaIds | decidim-initiatives/app/services/decidim/initiatives/initiative_search.rb:130-132 | raises NoMethodError iff `area_id` is not a list or holds a nil element; otherwise the ids of every element exactly once, none holding a `_` when every element is a string |
| InitiativeSearch.NestedAreaId | decidim-initiatives/app/services/decidim/initiatives/initiative_search.rb:131 | a one-element nested list gives its element unsplit, a nil staying nil |
| InitiativeSearch.NestedAreaIdExamples | decidim-initiatives/app/services/decidim/initiatives/initiative_search.rb:131 | `[["3"]]`, `[[nil]]` and `[["1_2"]]` give `["3"]`, `[nil]` and `["1_2"]` |
| InitiativeSearch.SearchType | decidim-initiatives/app/services/decidim/initiatives/initiative_search.rb:57-63 | the query as it is when "all" is listed; otherwise exactly the initiatives whose scoped type belongs to a listed type |
| InitiativeSearch.SearchAuthor | decidim-initiatives/app/services/decidim/initiatives/initiative_search.rb:65-71 | only "myself" with a current user filters, to exactly that user's initiatives |
| InitiativeSearch.ScopeConditions | decidim-initiatives/app/services/decidim/initiatives/initiative_search.rb:76-81 | the in-place deletion and appends build exactly the conditions and binds of `ScopeConditionsOf` |
| InitiativeSearch.Where | decidim-initiatives/app/services/decidim/initiatives/initiative_search.rb:81 | blank conditions keep the query; a statement with `?` placeholders raises when the bind count differs from theirs; one without placeholders ignores surplus binds; otherwise exactly the rows satisfying the OR |
| InitiativeSearch.ScopeConditionsShape | decidim-initiatives/app/services/decidim/initiatives/initiative_search.rb:76-81 | IS NULL appears iff "global" was listed; one bind per remaining id; placeholders equal binds when a remaining id is a value, none otherwise |
| InitiativeSearch.SearchScope | decidim-initiatives/app/services/decidim/initiatives/initiative_search.rb:73-82 | `search_scope_id` never raises, for any `scope_id`, and is the query as it is when "all" is listed |
| InitiativeSearch.SatisfiesPartOf | decidim-initiatives/app/services/decidim/initiatives/initiative_search.rb:79-81 | the ANY conditions hold iff one bound id is among the scope's ancestors |
| InitiativeSearch.ScopeConditionsHold | decidim-initiatives/app/services/decidim/initiatives/initiative_search.rb:76-81 | for any list of ids, placeholders never disagree with binds, the condition is blank iff no truthy id and no "global" remain, and otherwise holds for a row iff `ScopeFilterKeeps` does |
| InitiativeSearch.ScopeFilterMeaning | decidim-initiatives/app/services/decidim/initiatives/initiative_search.rb:73-82 | for every list without "all", nils included, the filter succeeds and keeps exactly the listed-scope rows, the global-scope rows when "global" is listed with nils only, or every row when the condition is blank |
| InitiativeSearch.ScopeFilterOfValues | decidim-initiatives/app/services/decidim/initiatives/initiative_search.rb:76-81 | with values only, the kept rows are the global-scoped ones when "global" is listed and those under a listed scope |
| InitiativeSearch.GlobalWithNilFindsGlobalScoped | decidim-initiatives/app/services/decidim/initiatives/initiative_search.rb:78-81 | `["global", nil]` succeeds and returns exactly the global-scope rows: the nil's surplus bind is ignored |
| InitiativeSearch.SearchArea | decidim-initiatives/app/services/decidim/initiatives/initiative_search.rb:84-88 | raises exactly when `area_ids` does; the query as it is when "all" is an id; otherwise exactly the initiatives whose area is listed, a nil id selecting those without an area |
| InitiativeSearch.NestedNilAreaFindsUnassigned | decidim-initiatives/app/services/decidim/initiatives/initiative_search.rb:84-88 | `[[nil]]` succeeds with exactly the initiatives without an area |
| InitiativeSearch.ScalarAreaIdRaises | decidim-initiatives/app/services/decidim/initiatives/initiative_search.rb:131 | a single value or nil as `area_id` makes the filter raise |
| InitiativeSearch.SelectedScopes | decidim-initiatives/app/services/decidim/initiatives/initiative_search.rb:95-103 | exactly the model scopes whose name is an element of the array given as the parameter that governs them |
| InitiativeSearch.SelectedScopesByParameter | decidim-initiatives/app/services/decidim/initiatives/initiative_search.rb:95-103 | the custom states come only from `custom_state`, the others only from `state`, and only from an array holding the name; nil parameters select nothing |
| InitiativeSearch.States | decidim-initiatives/app/services/decidim/initiatives/initiative_search.rb:94-115 | raises NoMethodError iff `state` or `custom_state` is a single string; otherwise exactly the initiatives of the query in at least one selected scope |
| InitiativeSearch.NoSelectionNothingFound | decidim-initiatives/app/services/decidim/initiatives/initiative_search.rb:105-114 | with no scope selected and no string parameter, `states` succeeds with nothing |
| InitiativeSearch.NoSelectionExamples | decidim-initiatives/app/services/decidim/initiatives/initiative_search.rb:95-114 | nil parameters, and a name nested one array too deep, find nothing |
| InitiativeSearch.StatesIdempotent | decidim-initiatives/app/services/decidim/initiatives/initiative_search.rb:48-55 | when `states` succeeds, applying it again, as the state and custom-state searches do, gives the same result |
| InitiativeSearch.StatesKeepsSelected | decidim-initiatives/app/services/decidim/initiatives/initiative_search.rb:94-115 | with array or nil parameters, rows all in a selected scope are kept as they are |
| InitiativeHelper.StateBadgeCssClass | decidim-initiatives/app/helpers/decidim/initiatives/initiative_helper.rb:15-19 | "success" iff accepted, otherwise "warning" |
| InitiativeHelper.PopularityBuckets | decidim-initiatives/app/helpers/decidim/initiatives/initiative_helper.rb:55-83 | no class iff p ≤ 0; level 1 iff 0<p<40, 2 iff 40≤p<60, 3 iff 60≤p<80, 4 iff 80≤p<100, 5 iff p≥100 |
| InitiativeHelper.PopularityLevelsPartition | decidim-initiatives/app/helpers/decidim/initiatives/initiative_helper.rb:65-83 | the level predicates are pairwise exclusive, and one holds iff p > 0 |
| InitiativeHelper.PopularityMonotonic | decidim-initiatives/app/helpers/decidim/initiatives/initiative_helper.rb:55-83 | a larger percentage never gives a lower level |
| InitiativeHelper.PopularityClass | decidim-initiatives/app/helpers/decidim/initiatives/initiative_helper.rb:55-63 | `popularity_class`; specified by `PopularityBuckets` and `PopularityMonotonic` |
| InitiativeHelper.PopularityLevel1 | decidim-initiatives/app/helpers/decidim/initiatives/initiative_helper.rb:65-67 | `popularity_level1?`; specified by `PopularityBuckets` and `PopularityLevelsPartition` |
| InitiativeHelper.PopularityLevel2 | decidim-initiatives/app/helpers/decidim/initiatives/initiative_helper.rb:69-71 | `popularity_level2?`; specified by `PopularityBuckets` and `PopularityLevelsPartition` |
| InitiativeHelper.PopularityLevel3 | decidim-initiatives/app/helpers/decidim/initiatives/initiative_helper.rb:73-75 | `popularity_level3?`; specified by `PopularityBuckets` and `PopularityLevelsPartition` |
| InitiativeHelper.PopularityLevel4 | decidim-initiatives/app/helpers/decidim/initiatives/initiative_helper.rb:77-79 | `popularity_level4?`; specified by `PopularityBuckets` and `PopularityLevelsPartition` |
| InitiativeHelper.PopularityLevel5 | decidim-initiatives/app/helpers/decidim/initiatives/initiative_helper.rb:81-83 | `popularity_level5?`; specified by `PopularityBuckets` and `PopularityLevelsPartition` |
| InitiativeHelper.PermissionsFor | decidim-initiatives/app/helpers/decidim/initiatives/initiative_helper.rb:147-150 | [] without permissions; otherwise the action's handler keys, or a raise when the permissions do not reach them |
| InitiativeHelper.PermissionsForOtherActionRaises | decidim-initiatives/app/helpers/decidim/initiatives/initiative_helper.rb:149 | a type with permissions only for creating raises when asked for voting |
| InitiativeHelper.PermissionsForCorrected | decidim-initiatives/app/helpers/decidim/initiatives/initiative_helper.rb:147-150 | agrees with the original wherever that does not raise, and gives [] where it raises |
| InitiativeHelper.AllPermissionsFor | decidim-initiatives/app/helpers/decidim/initiatives/initiative_helper.rb:153-155 | the per-type lists in order, succeeding iff every type succeeds |
| InitiativeHelper.Concat | decidim-initiatives/app/helpers/decidim/initiatives/initiative_helper.rb:155-157 | holds exactly the elements of the lists |
| InitiativeHelper.MergedPermissionsFor | decidim-initiatives/app/helpers/decidim/initiatives/initiative_helper.rb:152-158 | raises with no types; otherwise succeeds iff every type does, giving each handler of any type exactly once |
| InitiativeHelper.InjectAndTruthy | decidim-initiatives/app/helpers/decidim/initiatives/initiative_helper.rb:142-144 | the `&&` fold is truthy iff its start is truthy and every later answer is yes |
| InitiativeHelper.AnyInitiativeTypesAuthorizedMeaning | decidim-initiatives/app/helpers/decidim/initiatives/initiative_helper.rb:140-145 | nil without a user or types; truthy iff there is a user, at least one type, and every type after the first is authorized |
| InitiativeHelper.AnyInitiativeTypesAuthorized | decidim-initiatives/app/helpers/decidim/initiatives/initiative_helper.rb:140-145 | `any_initiative_types_authorized?` as written; specified by `AnyInitiativeTypesAuthorizedMeaning` and `FirstTypeNotChecked` |
| InitiativeHelper.FirstTypeNotChecked | decidim-initiatives/app/helpers/decidim/initiatives/initiative_helper.rb:142-144 | a user refused for the only type is told yes |
| InitiativeHelper.AnyInitiativeTypesAuthorizedCorrected | decidim-initiatives/app/helpers/decidim/initiatives/initiative_helper.rb:140-145 | truthy iff there is a user and every type is authorized |
| InitiativeMCell.StateClasses | decidim-initiatives/app/cells/decidim/initiatives/initiative_m_cell.rb:31-42 | a single class: success iff accepted, published or debatted; alert iff rejected, discarded or classified; warning iff validating or examinated; muted otherwise |
| InitiativeMCell.NotHidden | decidim-initiatives/app/cells/decidim/initiatives/initiative_m_cell.rb:63 | exactly the comments that are not hidden |
| InitiativeMCell.CommentsCount | decidim-initiatives/app/cells/decidim/initiatives/initiative_m_cell.rb:61-66 | 0 with comments disabled; the visible comments with the `not_hidden` scope; all of them without it |
| InitiativeMCell.NotHiddenCountsAll | decidim-initiatives/app/cells/decidim/initiatives/initiative_m_cell.rb:63 | the visible count is the full count iff no comment is hidden |
| InitiativeMCell.CommentsCountStatusOf | decidim-initiatives/app/cells/decidim/initiatives/initiative_m_cell.rb:68-75 | nothing iff comments are disabled; a linked count iff they are enabled and the card links to the initiative |
| UpdateQuestion.Diff | app/commands/decidim/questions/admin/update_question.rb:77 | one entry per form attribute: its key when the value differs from the question's, nil otherwise |
| UpdateQuestion.OnlyRecipientOrStateChangedIff | app/commands/decidim/questions/admin/update_question.rb:76-83 | holds iff every title, body and category_id entry of the form equals the question's |
| UpdateQuestion.OnlyRecipientOrStateChanged | app/commands/decidim/questions/admin/update_question.rb:76-79 | `only_recipient_or_state_changed?`; specified by `OnlyRecipientOrStateChangedIff` |
| UpdateQuestion.DiffIncludeUserInput | app/commands/decidim/questions/admin/update_question.rb:81-83 | `diff_include_user_input`; specified by `OnlyRecipientOrStateChangedIff` |
| UpdateQuestion.SetCategoryAlwaysVersioned | app/commands/decidim/questions/admin/update_question.rb:77-82 | against attributes without `category_id`, a form with a set `category_id` is never on the unversioned path |
| UpdateQuestion.RecipientAndStateNotUserInput | app/commands/decidim/questions/admin/update_question.rb:76-83 | a form of only recipient and state is never versioned |
| UpdateQuestion.Question.constructor | app/commands/decidim/questions/admin/update_question.rb:47 | a question with the given fields and no versions |
| UpdateQuestion.Question.UpdateWithoutVersioning | app/commands/decidim/questions/admin/update_question.rb:67-74 | writes recipient and state only, with no version |
| UpdateQuestion.Question.UpdateWithVersioning | app/commands/decidim/questions/admin/update_question.rb:55-65 | writes title and body with hashtags, category, recipient and state, and adds one version by the current user |
| UpdateQuestion.Question.Update | app/commands/decidim/questions/admin/update_question.rb:49-53 | unversioned iff only recipient or state changed, otherwise versioned |
| UpdateQuestion.Call | app/commands/decidim/questions/admin/update_question.rb:27-43 | an invalid form changes nothing; an invalid attachment leaves the question without attachments; otherwise `:ok`, with the update and the new attachment |
| QuestionEndorsements.EndorsementButtonClasses | app/helpers/decidim/questions/question_endorsements_helper.rb:12-15 | exactly "small" iff rendered from the list; always starts with "small" |
| QuestionEndorsements.EndorseNeedsCard | app/helpers/decidim/questions/question_endorsements_helper.rb:34-43 | whoever may endorse sees the card; blocked or anonymous means no endorsing |
| QuestionEndorsements.CurrentUserCanEndorse | app/helpers/decidim/questions/question_endorsements_helper.rb:34-36 | `current_user_can_endorse?`; specified by `EndorseNeedsCard` |
| QuestionEndorsements.ShowEndorsementsCard | app/helpers/decidim/questions/question_endorsements_helper.rb:41-43 | `show_endorsements_card?`; specified by `EndorseNeedsCard` |
| QuestionEndorsements.FullyEndorsedWithoutGroups | app/helpers/decidim/questions/question_endorsements_helper.rb:79-85 | with no verified groups, fully endorsed iff a user who endorsed personally; never without a user |
| QuestionEndorsements.FullyEndorsedMonotonic | app/helpers/decidim/questions/question_endorsements_helper.rb:79-85 | more endorsements keep full endorsement; one missing group endorsement prevents it |
| QuestionEndorsements.FullyEndorsed | app/helpers/decidim/questions/question_endorsements_helper.rb:79-85 | `fully_endorsed?`; specified by `FullyEndorsedWithoutGroups` and `FullyEndorsedMonotonic` |
| QuestionEndorsements.IdentityHttpMethod | app/helpers/decidim/questions/question_endorsements_helper.rb:104-105 | `:delete` iff the identity already endorsed, `:post` otherwise |
| QuestionEndorsements.IdentityToggles | app/helpers/decidim/questions/question_endorsements_helper.rb:104-105 | after endorsing, the toggle deletes; with no endorsements it posts |
| QuestionEndorsements.CountCardPartOf | app/helpers/decidim/questions/question_endorsements_helper.rb:111-125 | a link iff the count is positive; the given or default class, plus "success" iff fully endorsed, otherwise "secondary" |
| QuestionEndorsements.ButtonBranchOf | app/helpers/decidim/questions/question_endorsements_helper.rb:127-141 | disabled iff blocked or unable to participate; else the cabin iff a user who is allowed; else the modal iff a user; else the authorized button |
| QuestionEndorsements.ButtonIgnoresEnabled | app/helpers/decidim/questions/question_endorsements_helper.rb:130-140 | the button branch does not depend on endorsements being enabled |
| AreaForm.ColorMatchesIff | decidim-admin/app/forms/decidim/admin/area_form.rb:24 | the left-to-right scan accepts a colour iff some `#` is followed by six, or by three, hexadecimal digits |
| AreaForm.ColorUnanchored | decidim-admin/app/forms/decidim/admin/area_form.rb:24 | text before and after a valid colour does not matter |
| AreaForm.ColorExamples | decidim-admin/app/forms/decidim/admin/area_form.rb:24 | "#fff", "#A1b2C3" and "red #abc" match; "#12", "fff" and "" do not |
| AreaForm.ColorValidation | decidim-admin/app/forms/decidim/admin/area_form.rb:24 | no error iff a colour is given and matches; otherwise exactly one invalid-colour error |
| AreaForm.AreaType | decidim-admin/app/forms/decidim/admin/area_form.rb:35-37 | nil without an id; otherwise the area type with that id, nil when there is none |
| AreaForm.NameUniqueness | decidim-admin/app/forms/decidim/admin/area_form.rb:26-31 | no error without an organization; a taken error iff another area of the organization has the same name and area type |
| AreaForm.NameUniquenessEdges | decidim-admin/app/forms/decidim/admin/area_form.rb:28 | the area being edited never clashes with itself; an unknown area type id compares against the areas without a type |
| AreaForm.Validate | decidim-admin/app/forms/decidim/admin/area_form.rb:18-31 | each error iff its condition (name blank, organization missing, name taken, colour invalid); valid iff none holds |
| RubyCore.Uniq | decidim-initiatives/app/services/decidim/initiatives/initiative_search.rb:131 | `uniq`: no duplicates, the same elements |
| RubyCore.RemoveAll | decidim-initiatives/app/services/decidim/initiatives/initiative_search.rb:78 | `delete`: the value is gone and every other element kept, with its multiplicity |
| RubyCore.Split | decidim-initiatives/app/services/decidim/initiatives/initiative_search.rb:131 | `split("_")`: no fragment contains the separator, and the last fragment is not empty |
| RubyCore.ToIExamples | decidim-initiatives/app/services/decidim/initiatives/initiative_search.rb:81 | `to_i` skips one underscore between digits and stops at two, or at one at either end |
| RubyCore.BlankExamples | decidim-initiatives/app/forms/decidim/initiatives/admin/initiative_answer_form.rb:24 | `blank?` treats non-breaking and ideographic spaces as blank, and any other character as not |

## Left out

- The batch generator's own implementation is not part of this model. The model is built from its specification file. Its `mark_as_sent` example (lines 171-175) cannot see a marking for two reasons: it reads in-memory records that are not reloaded, and the notifications it creates (line 10) are now-priority ones, so `events` is empty and nothing is marked even after a reload. The model follows lines 58-61 instead, where exactly the digested notifications are marked.
- `perform_later` and `deliver_later` are treated as appends to an output sequence. Queues, asynchrony, transactions and retries are not modelled.
- I18n lookups and every piece of HTML are not modelled: `content_tag`, `link_to`, `button_to`, partials, icons and translations. The helpers return what selects the markup.
- The modal-button helpers of the initiative helper mutate `html_options` and `request.env`. They are not modelled; only the permission lists they store are. `humanize_state`, `humanize_admin_state` and `popularity_tag` are left out as rendering.
- InitiativeSearch.SearchText: `ILIKE` is read as case-sensitive containment. Case folding and the `%` and `_` wildcards inside the search text are not modelled.
- The binding of an id string to an integer column is modelled as Ruby's `to_i`.
- RubyCore.ToI: the `0d` decimal prefix that Ruby's integer parser also accepts after the sign is not modelled.
- Searchlight, which decides which `search_*` filters run for the options given, is not part of this model. The `type_id`, `scope_id`, `area_id`, `state` and `custom_state` filters are modelled for every option value that is a string, nil, or an array of these. `search_text` is modelled for a string option, and `author` for a string or nil. A hash-valued option is not modelled. `area_ids` is modelled with ActiveSupport's `Array#split` for a nested list, since every Rails application loads it.
- The model scopes the states filter combines (`accepted`, `open`, `closed`, `answered`, ...) are defined outside this model. Each row carries the scopes it belongs to.
- `Notification::PRIORITY_LEVELS` and `Initiative::AUTOMATIC_STATES`/`MANUAL_STATES` are defined outside this model and are parameters.
- The `ActionAuthorizer` answers, `can_participate?` and `allowed_to?` are parameters.
- The hashtag rendering of the question's title and body, the category lookup and the attachment validation are done by code that is not part of this model. Their results are fields of the form.
- Traceability's action log is reduced to one version entry per versioned update.
- Question attributes other than title, body, category, recipient, state, attachments and versions are not modelled.
- A question's category is reached through its categorization, as for Decidim's other categorizable resources, and none of the question's source files shows a `category_id` column. So `question.attributes["category_id"]` is read as nil: a form with a set `category_id` is always versioned (`SetCategoryAlwaysVersioned`).
- The logo validations of the area form (file size and content type) are not modelled.
- AreaForm.Validate: `translatable_presence` is read as a non-blank translation for the default locale.
- InitiativesType.Validate: a translated title or description counts as present when it holds any translation.
- The rake task that runs the generator is not modelled. Its own specification expects three mails after two batch and three now-priority notifications, which contradicts the generator's specification.
- InitiativesType.InitiativesType.UpdateGlobalScope: the `save` of the new `InitiativesTypeScope` is taken to succeed. The validations of `InitiativesTypeScope` are not part of this model, so a save they would refuse is not modelled.
- InitiativesType.InitiativesType.BeforeUpdate: appends the global scope through `UpdateGlobalScope`, so it too takes the save to succeed.
- Each row carries its scope's `part_of` list. For a row of the global scope, the LEFT JOIN leaves `decidim_scopes.part_of` NULL, so no `? = ANY(part_of)` condition holds. `InitiativeSearch.PartOfList` reads the field as empty there, whatever it holds.
- "Now" and "today" are parameters. `time_ago_in_words` is kept as the notification's age in seconds.

## Findings

| source | as written | input that shows it | evidently intended | confidence | as-written member | corrected member |
|---|---|---|---|---|---|---|
| decidim-initiatives/app/models/decidim/initiatives_type.rb:51-53 | `scopes.include?(nil)` asks whether a record collection holds nil, which it never does, so the hook fires on every update of a global-only type | a global-only type with one scope, updated twice: the second update builds and saves a second global scope requiring twice the supports; it is stored unless the `InitiativesTypeScope` validations refuse a second global scope for the type | no scope of the type is the global one yet | not executed | InitiativesType.HookFiresAgain | InitiativesType.IntendedHookFiresOnce |
| decidim-initiatives/app/forms/decidim/initiatives/admin/initiative_answer_form.rb:56-58 | the restriction compares `answer_date <= Date.current` even when the date is nil, after the presence check has already failed | with Decidim's state lists (automatic: accepted, rejected; manual: created, validating, discarded, published), a published initiative submitted as "discarded" with both signature dates and no answer date: `nil <= date` raises NoMethodError | report the missing date through the presence error only | not executed | InitiativeAnswerForm.MissingAnswerDateRaises | InitiativeAnswerForm.CorrectedValidIffAcceptable |
| decidim-initiatives/app/helpers/decidim/initiatives/initiative_helper.rb:142-144 | the seedless `inject` starts from the first type object, so the first type is never authorization-checked (and one type alone is always truthy) | a signed-in user refused for the only initiative type is told some type is authorized | fold from `true` over every type: the block joins the answers with `&&`, so the code asks for every type although the name says "any"; the correction keeps that `&&` and only adds the seed | not executed | InitiativeHelper.FirstTypeNotChecked | InitiativeHelper.AnyInitiativeTypesAuthorizedCorrected |
| decidim-initiatives/app/helpers/decidim/initiatives/initiative_helper.rb:149 | `dig(action, "authorization_handlers").keys` raises on nil when the type's permissions do not mention the action | permissions `{"create" => {"authorization_handlers" => {"dummy" => {}}}}` asked for "vote" | no handlers for an action the permissions do not mention | not executed | InitiativeHelper.PermissionsForOtherActionRaises | InitiativeHelper.PermissionsForCorrected |
