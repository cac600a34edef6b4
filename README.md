# STN-bot form reminders, modelled in Dafny

STN-bot is a dashboard that reminds people to fill in Google Forms. It keeps three relations:

- People, with a name, an email and a Messenger page-scoped id (psid).
- Forms, each with the list of person ids expected to answer.
- Responses, keyed by (form id, person id), with `has_responded`, the response date, the time of the last reminder and a reminder count.

It synchronises the answers collected by an Apps Script web app into the responses. It then sends Messenger reminders to the people who have not answered, once a cooldown has passed. The repository holds three rewrites of the store, and this project models each of them:

- the v2 in-memory store (`StreamlitDatabase`, module `MemoryStore`);
- the v2 SQLite store with "pôles" (module `PolesStore`);
- the v2 SQLite store without poles (module `PlainStore`);
- the v3 store with poles and groups (module `StoreV3`).

Other modules model the rest of the core:

- the records and their rules (`ModelsV2`, `EnhancedModels`, `ModelsV3`);
- the Google Forms and Messenger services (`GoogleForms`, `Messenger`);
- the v2 and v3 reminder orchestration (`Reminders`, `ServicesV3`);
- the enhanced SQLite store with users, roles and webhook auto-capture (`EnhancedStore`);
- the contact-validation page's logic (`Validation`);
- the memoised service registry (`Factory`);
- the `.env` parser and the two configuration objects (`EnvFile`, `SettingsV2`, `ConfigV3`);
- the data logic of the v3 app (`AppV3`): orphan repair, form edits and two-click deletion.

`Wrappers`, `Text`, `Seqs` and `Relations` hold the shared definitions:

- `Option`;
- Python's `strip`, `lower`, `in` and `str.format` on strings;
- list comprehensions and counting;
- key lookups, joins and orphan counts.

Modelling choices:

- Each store is a class whose tables are `seq` fields. Each store method is one atomic step with `modifies` on the tables it writes, and its `ensures` give the whole new table as a function of the old one.
- Uniqueness constraints of the SQL schemas (primary keys, UNIQUE columns) are explicit conditions under which an INSERT or UPDATE fails and the step changes nothing.
- Timestamps are integer seconds. The current time, fresh uuids, Google and Messenger replies and the password check are parameters of the operations that use them.
- Loops in the source are `while` or `for` loops with invariants, proved against the specification functions next to them.
- Since no connection enables foreign keys, the `ON DELETE CASCADE` clauses of the SQLite schemas have no effect in the model, as in the program. Deleting a person there leaves the person's responses, which the health check then counts as orphans (`PolesStore.DeletePersonLeavesOrphan`).
- The three stores differ on purpose:
  - the in-memory store creates a missing response on mark or reminder, and the SQLite stores fail instead;
  - the poles store's sync reverts `has_responded` for expected people absent from the submissions;
  - SQL eligibility for a reminder needs a non-empty psid, and in-memory eligibility does not.

## Model

| member | source | states |
|---|---|---|
| ModelsV2.PersonValidIff | STN-botv2/database/models.py:102-106 | a person is valid exactly when its name has a non-whitespace character and so does its email or its psid |
| ModelsV2.FormValidIff | STN-botv2/database/models.py:175-179 | a form is valid exactly when its name and its Google form id both have a non-whitespace character |
| ModelsV2.NormalizeEmailIdempotent | STN-botv2/database/models.py:70-72 | normalising an email twice gives the same result as once |
| ModelsV2.NormalizeEmailLowered | STN-botv2/database/models.py:70-72 | a normalised email has no upper-case letter |
| ModelsV2.NormalizeEmailTrimmed | STN-botv2/database/models.py:70-72 | a normalised email is empty or starts and ends with a non-whitespace character |
| ModelsV2.FormUrl | STN-botv2/database/models.py:120-126 | the view address is empty without a Google id, else the Google Forms view URL around that id |
| ModelsV2.CanSendReminderMonotone | STN-botv2/database/models.py:197-206 | a response that may be reminded at some time may still be reminded at any later time |
| ModelsV2.RespondedEndsReminders | STN-botv2/database/models.py:208-212 | marking as responded sets the flag, records the given date or the current time, keeps the reminder history, and no reminder is ever due afterwards |
| ModelsV2.ReminderRecordedBlocksCooldown | STN-botv2/database/models.py:214-218 | recording a reminder adds one to the count, keeps the response state, and the response may be reminded again exactly when it is unanswered and strictly more than the cooldown has passed |
| ModelsV2.ResponseObject.constructor | STN-botv2/database/models.py:180-191 | the object holds the given response |
| ModelsV2.ResponseObject.MarkAsResponded | STN-botv2/database/models.py:208-212 | the fields become those of the responded value of the old response |
| ModelsV2.ResponseObject.RecordReminderSent | STN-botv2/database/models.py:214-218 | the fields become those of the reminded value of the old response |
| ModelsV2.QueriesNest | STN-botv2/database/models.py:288-302 | the responses needing a reminder are an ordered sub-list of the non-responders, which are an ordered sub-list of all responses |
| ModelsV2.QueryMembership | STN-botv2/database/models.py:288-302 | each query reports a response exactly when it is in the input and passes that query's test (form id, not responded, may be reminded) |
| ModelsV2.StatsAddUp | STN-botv2/database/models.py:303-323 | the totals are the list sizes, pending plus responded is the number of responses, reminders sent today never exceed it, the success rate lies in 0..100 and is 0 without responses |
| ModelsV2.MembershipAfterChange | STN-botv2/database/models.py:344-356 | on a duplicate-free member list, adding makes the person a member without duplicates and removing makes them a non-member without duplicates |
| ModelsV2.AddThenRemove | STN-botv2/database/models.py:344-356 | adding a new member and then removing them restores the list |
| ModelsV2.PeopleGroup.constructor | STN-botv2/database/models.py:324-336 | the given fields are kept and the defaults are the green colour, the group icon, active, created and updated now |
| ModelsV2.PeopleGroup.AddMember | STN-botv2/database/models.py:344-349 | returns true exactly when the person was not yet a member; only then is the list extended, the count raised by one and the update time set |
| ModelsV2.PeopleGroup.RemoveMember | STN-botv2/database/models.py:351-356 | returns true exactly when the person was a member; only then is the first occurrence removed, the count lowered by one and the update time set |
| ModelsV3.PoleDisplayName | STN-botv3/models.py:26-29 | the display name is the folder icon, a space and the pole's name |
| ModelsV3.PoleDisplayNameInjective | STN-botv3/models.py:26-29 | two poles show the same display name exactly when their names are equal |
| ModelsV3.GroupDisplayName | STN-botv3/models.py:42-45 | the display name is the group's icon, a space and its name |
| ModelsV3.GroupDisplayNameSameIcon | STN-botv3/models.py:42-45 | two groups with the same icon show the same display name exactly when their names are equal |
| ModelsV3.MemberCountCountsRepeats | STN-botv3/models.py:46-49 | the member count is at least the number of distinct members, and strictly more when an id is listed twice |
| ModelsV3.DistinctIdsBound | STN-botv3/models.py:46-49 | a list has at most as many distinct ids as entries, strictly fewer when one repeats |
| ModelsV3.FormUrl | STN-botv3/models.py:60-63 | the address is the Google Forms view prefix, the Google id and the view suffix |
| ModelsV3.FormUrlRoundTrip | STN-botv3/models.py:60-63 | the Google id is read back from the address; two forms share an address exactly when they share a Google id |
| ConfigV3.DefaultsWhenUnset | STN-botv3/config.py:45-50 | with none of the five variables set the configuration holds the defaults (empty tokens, "STN-bot v3", no debug, "data/stn_bot.db") and is not valid |
| ConfigV3.ValidIffTokensSet | STN-botv3/config.py:45-70 | the configuration is valid exactly when PAGE_TOKEN and GOOGLE_SCRIPT_URL are set and non-empty; debug is on exactly when DEBUG lower-cases to "true" |
| SettingsV2.GetRequiredEnv | STN-botv2/config/settings.py:73-82 | fails exactly when the variable is unset or empty, else returns its non-empty value |
| SettingsV2.SettingsLoadIffRequiredPresent | STN-botv2/config/settings.py:50-71 | settings load exactly when PAGE_TOKEN and GOOGLE_APP_SCRIPT_URL are set and non-empty; validation passes exactly when they loaded; debug mode is off when DEBUG_MODE is unset |
| SettingsV2.FormUrlTemplateFills | STN-botv2/config/settings.py:137 | formatting the form-URL template with a form id gives the Google Forms view URL around that id |
| EnvFile.ParseLineAccepts | STN-botv2/config/settings.py:31-34 | a line is taken exactly when, stripped, it is non-empty, does not start with '#' and holds '=' |
| EnvFile.ParseLineKey | STN-botv2/config/settings.py:33-34 | the key of a taken line holds no '=' and is already stripped |
| EnvFile.ParseLineValue | STN-botv2/config/settings.py:34 | the value of a taken line neither starts nor ends with a quote |
| EnvFile.ParseLineEmptyKey | STN-botv2/config/settings.py:31-35 | a taken line gives the empty key exactly when its stripped text starts with '=' |
| EnvFile.FirstRejected | STN-botv2/config/settings.py:35-40 | the first taken line whose `os.environ` write raises (empty name, or a NUL character), before which no line is refused |
| EnvFile.EmptyKeyStopsLoading | STN-botv2/config/settings.py:35-40 | the line `=x` is refused, so `A=1` after it is never applied |
| EnvFile.LastAssignmentWins | STN-botv2/config/settings.py:31-34 | after loading, a key holds the value of the last line that assigns it |
| EnvFile.UnassignedKeyKept | STN-botv2/config/settings.py:31-34 | a key that no line assigns keeps its earlier presence and value |
| EnvFile.Environment.constructor | STN-botv2/config/settings.py:10-19 | the environment starts with the given variables |
| EnvFile.Environment.LoadEnvManually | STN-botv3/config.py:18-37 | true exactly when the file exists, no taken line is refused by the environment and it reads without fault; a missing file leaves the variables alone, otherwise the taken lines before the first refused one are applied in order |
| MemoryStore.AcceptsPersonIff | STN-botv2/database/managers.py:39-59 | a person is accepted exactly when its email (if any) normalises differently from every stored email and its psid (if any) differs from every stored psid |
| MemoryStore.PairRowAt | STN-botv2/database/managers.py:276-282 | after writing a row at the first position holding its (form, person) pair, or appending it, the pair lookup finds that row |
| MemoryStore.RewriteKeepsValid | STN-botv2/database/managers.py:284-299 | rewriting a row without changing its id, form or person keeps ids and pairs unique |
| MemoryStore.AppendKeepsValid | STN-botv2/database/managers.py:225-247 | appending a row with a new id and a new (form, person) pair keeps ids and pairs unique |
| MemoryStore.UpsertPairSpec | STN-botv2/database/managers.py:225-247 | updating the pair's row or appending a new one keeps ids and pairs unique, the pair then finds the changed or the new row, and the table grows only when the pair was absent |
| MemoryStore.AddOrUpdateKeepsIdentity | STN-botv2/database/managers.py:225-247 | add_or_update_response keeps the table valid, leaves a row for the pair that keeps the existing row's id and creation time, and grows the table only for a new pair |
| MemoryStore.MarkedRespondedSpec | STN-botv2/database/managers.py:301-321 | mark_as_responded keeps the table valid and leaves the pair's row responded, dated with the given date or now, with its reminder count kept (0 for a new row) |
| MemoryStore.ReminderLoggedSpec | STN-botv2/database/managers.py:323-344 | record_reminder_sent keeps the table valid and leaves the pair's row reminded now with its count raised by one (1 for a new row) |
| MemoryStore.DeletePersonKeepsHealthy | STN-botv2/database/managers.py:109-135 | deleting a person together with their responses keeps a store without orphaned responses without them |
| MemoryStore.DeleteFormKeepsHealthy | STN-botv2/database/managers.py:197-223 | deleting a form together with its responses keeps a store without orphaned responses without them |
| MemoryStore.ImportExportRoundTrip | STN-botv2/database/managers.py:467-496 | importing an export restores the people, forms and responses, and the last sync time when one was exported |
| MemoryStore.StreamlitDatabase.constructor | STN-botv2/database/managers.py:21-37 | the store starts with no people, forms or responses and no last sync |
| MemoryStore.StreamlitDatabase.AddPerson | STN-botv2/database/managers.py:39-59 | succeeds exactly when the person is accepted, and only then appends it with its update time set |
| MemoryStore.StreamlitDatabase.UpdatePerson | STN-botv2/database/managers.py:92-107 | succeeds exactly when a person with that id exists; the first such person is replaced with its update time set |
| MemoryStore.StreamlitDatabase.DeletePerson | STN-botv2/database/managers.py:109-135 | removes the person and all their responses; true exactly when the person existed |
| MemoryStore.StreamlitDatabase.AddForm | STN-botv2/database/managers.py:137-152 | succeeds exactly when no stored form has the same Google id, and only then appends the form |
| MemoryStore.StreamlitDatabase.UpdateForm | STN-botv2/database/managers.py:180-195 | succeeds exactly when a form with that id exists; the first such form is replaced with its update time set |
| MemoryStore.StreamlitDatabase.DeleteForm | STN-botv2/database/managers.py:197-223 | removes the form and all its responses; true exactly when the form existed |
| MemoryStore.StreamlitDatabase.UpdateResponse | STN-botv2/database/managers.py:284-299 | succeeds exactly when a response with that id exists; the first such response is replaced with its update time set |
| MemoryStore.StreamlitDatabase.AddOrUpdateResponse | STN-botv2/database/managers.py:225-247 | the table becomes the add-or-update of the old table (see AddOrUpdateKeepsIdentity) |
| MemoryStore.StreamlitDatabase.MarkAsResponded | STN-botv2/database/managers.py:301-321 | the table becomes the marked table of MarkedRespondedSpec |
| MemoryStore.StreamlitDatabase.RecordReminderSent | STN-botv2/database/managers.py:323-344 | the table becomes the reminded table of ReminderLoggedSpec |
| MemoryStore.StreamlitDatabase.ResponsesWithPeopleForForm | STN-botv2/database/managers.py:262-270 | the form's responses, each paired with its person, skipping responses whose person is missing |
| MemoryStore.StreamlitDatabase.NonRespondersForForm | STN-botv2/database/managers.py:346-360 | the form's unanswered responses paired with their people |
| MemoryStore.StreamlitDatabase.PeopleNeedingReminders | STN-botv2/database/managers.py:372-383 | the form's responses that may be reminded under the cooldown, paired with their people |
| MemoryStore.StreamlitDatabase.JoinLoop | STN-botv2/database/managers.py:262-270 | the loop pairs each response with its person in order, skipping the unknown ones (Relations.JoinPeopleSpec and JoinPeopleComplete give its meaning) |
| MemoryStore.StreamlitDatabase.AllNonResponders | STN-botv2/database/managers.py:362-370 | a map from each active form's name to that form's non-responders with their people |
| MemoryStore.StreamlitDatabase.SyncGoogleFormsResponses | STN-botv2/database/managers.py:395-465 | no error is counted, the updated count is the number of submissions with an email to known forms, exactly the created people are appended, the people and responses are those of the sync over the whole collection (`SyncFold`), and the last sync time is set |
| MemoryStore.StreamlitDatabase.SyncFormEntries | STN-botv2/database/managers.py:415-450 | one form's submissions: every submission with an email updates one response, the people list only grows, by the number created, and the tables are those of the submissions applied in order (`EntriesFold`) |
| MemoryStore.StreamlitDatabase.SyncEntry | STN-botv2/database/managers.py:416-450 | a submission without an email changes nothing; otherwise the person with that email (created if absent) is marked as having responded to the form, and the new tables are one `EntryStep` of the old |
| MemoryStore.MarkedRespondedIds | STN-botv2/database/managers.py:301-321 | marking keeps every row's id or adds one row with the fresh id |
| MemoryStore.MarkedRespondedFrame | STN-botv2/database/managers.py:301-321 | marking one (form, person) pair leaves the row of every other pair as it was |
| MemoryStore.EntryStepSpec | STN-botv2/database/managers.py:416-450 | one submission keeps the table valid and its unused ids unused, only appends people, un-marks no responded pair, and leaves the pair of the submitter's person and the form responded |
| MemoryStore.EntriesFoldSpec | STN-botv2/database/managers.py:415-450 | after a form's submissions the table is valid, no responded pair is un-marked, and every submission with an email has a person with that email responded to the form |
| MemoryStore.SyncMarksEverySubmission | STN-botv2/database/managers.py:407-450 | after the whole sync the table is valid, no responded pair is un-marked, and every submission with an email to a known form has a person with that email responded to that form |
| MemoryStore.StreamlitDatabase.ImportFromDict | STN-botv2/database/managers.py:479-496 | the tables become those of the imported data |
| MemoryStore.StreamlitDatabase.ClearAllData | STN-botv2/database/managers.py:514-527 | every table is emptied and the last sync forgotten |
| MemoryStore.StreamlitDatabase.GetHealthCheck | STN-botv2/database/managers.py:529-559 | the report counts the tables and the orphaned responses, and is healthy exactly when there are none |
| PolesStore.AssignPoleSpec | STN-botv2/database/sqlite_manager.py:155-160 | after assigning a pole to the forms without one, no form lacks a pole, the list keeps its length and only the forms without a pole changed, to that pole |
| PolesStore.AddPoleKeepsNamesDistinct | STN-botv2/database/sqlite_manager.py:168-197 | a pole that add_pole accepts keeps the pole names distinct ignoring case |
| PolesStore.FormsMovedSpec | STN-botv2/database/sqlite_manager.py:267-287 | moving forms to another pole leaves no form on the deleted pole and changes no other form |
| PolesStore.DeletePersonLeavesOrphan | STN-botv2/database/sqlite_manager.py:427-441 | deleting a person who has a response leaves an orphaned response, since delete_person removes only the people row |
| PolesStore.UnrespondedRows | STN-botv2/database/sqlite_manager.py:443-492 | add_form inserts one unresponded row per expected person, in order, the k-th with the k-th new id |
| PolesStore.AddFormRowsSpec | STN-botv2/database/sqlite_manager.py:443-492 | the inserted rows keep row ids and (form, person) pairs unique, and each expected person's pair then finds its new row |
| PolesStore.AddedRowFound | STN-botv2/database/sqlite_manager.py:443-492 | the pair of the k-th expected person finds the k-th inserted row |
| PolesStore.SetRespondedSpec | STN-botv2/database/sqlite_manager.py:602-642 | marking a pair keeps the table valid, leaves its row responded and dated with the given date or now, and leaves every other row unchanged |
| PolesStore.SetRemindedSpec | STN-botv2/database/sqlite_manager.py:644-662 | reminding a pair keeps the table valid, raises its row's count by one and records now; a pair without a row leaves the table unchanged |
| PolesStore.GetFormStats | STN-botv2/database/sqlite_manager.py:578-600 | total is the number of the form's rows, pending the number of them not responded, and responded never exceeds total |
| PolesStore.SqlEligibleIff | STN-botv2/database/sqlite_manager.py:775-845 | the query's WHERE clause holds exactly when the response may be reminded under the cooldown and the person has a psid |
| PolesStore.NeedingRemindersIff | STN-botv2/database/sqlite_manager.py:775-845 | a (person, response) pair is returned exactly when it is among the form's responses joined to their people, may be reminded and the person has a psid |
| PolesStore.HealthCheck | STN-botv2/database/sqlite_manager.py:708-752 | healthy exactly when every response has its person and its form and every form has a pole |
| PolesStore.SubmittedEmailsSnoc | STN-botv2/database/sqlite_manager.py:983-989 | one more submission adds its normalised email to the set of responded emails, unless it is empty |
| PolesStore.RevertedSpec | STN-botv2/database/sqlite_manager.py:1087-1097 | un-marking a pair leaves it without a responded row, keeps other pairs without one, keeps the length, and changes only that pair's responded rows, to unmarked |
| PolesStore.RevertAllSpec | STN-botv2/database/sqlite_manager.py:1083-1097 | the reversal loop keeps the table's length and leaves every row either unchanged or, for an expected person it reverts, unmarked |
| PolesStore.RevertAllClears | STN-botv2/database/sqlite_manager.py:1083-1097 | after the reversal loop no expected person it reverts has a responded row, and at most one reversal per expected person is counted |
| PolesStore.RevertAllQuiet | STN-botv2/database/sqlite_manager.py:1087-1097 | when no reverted person has a responded row, the loop changes nothing and counts nothing |
| PolesStore.RevertAllIdempotent | STN-botv2/database/sqlite_manager.py:1083-1097 | running the reversal loop a second time changes nothing and counts no reversal |
| PolesStore.SetRespondedMarks | STN-botv2/database/sqlite_manager.py:602-630 | marking a pair that has a row leaves every row of the pair responded and un-marks nothing |
| PolesStore.CreditMarks | STN-botv2/database/sqlite_manager.py:984-1071 | a credited submission leaves every row of the matched person (when they have one) or of the created person responded, and un-marks nothing |
| PolesStore.FoldMarks | STN-botv2/database/sqlite_manager.py:981-1071 | after a form's submissions, every person one of them credited has all rows for the form responded, and every fully responded pair stays so |
| PolesStore.FormSyncedMarks | STN-botv2/database/sqlite_manager.py:977-1097 | after one form of the sync, a person a submission credited has all rows for the form responded unless the reversal step reverts them |
| PolesStore.StepTally | STN-botv2/database/sqlite_manager.py:984-1078 | one submission counts one update or one error exactly when it has an email, creates a person only when it marks, and appends exactly the people it creates |
| PolesStore.SubmissionsTallyCounts | STN-botv2/database/sqlite_manager.py:981-1078 | over a form's submissions, updates plus errors are the submissions with an email, creations never exceed updates, and the people appended are the creations |
| PolesStore.SyncTallyCounts | STN-botv2/database/sqlite_manager.py:960-1113 | over the whole collection, updates plus errors are the submissions with an email to known forms, the unknown Google ids and the reversals; creations never exceed updates and are the people appended |
| PolesStore.SQLiteDatabase.constructor | STN-botv2/database/sqlite_manager.py:19-23 | a new database holds only the default pole and no people, forms, expected lists, responses or last sync |
| PolesStore.SQLiteDatabase.CreateTables | STN-botv2/database/sqlite_manager.py:145-160 | with no pole the default pole is inserted and assigned to every form without a pole; otherwise nothing changes |
| PolesStore.SQLiteDatabase.AddPole | STN-botv2/database/sqlite_manager.py:168-197 | succeeds exactly when no pole has the same name ignoring case and no pole the same id, and only then appends the pole |
| PolesStore.SQLiteDatabase.ActivePoles | STN-botv2/database/sqlite_manager.py:222-224 | exactly the active poles |
| PolesStore.SQLiteDatabase.UpdatePole | STN-botv2/database/sqlite_manager.py:248-265 | succeeds exactly when the pole exists and no other pole has the new name, and only then updates that pole |
| PolesStore.SQLiteDatabase.DeletePole | STN-botv2/database/sqlite_manager.py:267-287 | moves the pole's forms to the target when one is given, removes the pole, and reports whether it existed |
| PolesStore.SQLiteDatabase.FormsByPole | STN-botv2/database/sqlite_manager.py:289-298 | exactly the stored forms of that pole, each with its expected people |
| PolesStore.SQLiteDatabase.AddPerson | STN-botv2/database/sqlite_manager.py:300-340 | succeeds exactly when no stored person has the email (ignoring case) or the psid, and only then appends the person |
| PolesStore.SQLiteDatabase.DeletePerson | STN-botv2/database/sqlite_manager.py:427-441 | removes the person row only and reports whether it existed |
| PolesStore.SQLiteDatabase.AddForm | STN-botv2/database/sqlite_manager.py:443-492 | succeeds exactly when the form is accepted (a new Google id, a new form id, distinct expected ids, and no existing row for any (form, expected person) pair), and only then stores it, its expected people and one unresponded row per expected person |
| PolesStore.SQLiteDatabase.MarkAsResponded | STN-botv2/database/sqlite_manager.py:602-642 | succeeds exactly when the pair has a row, and only then marks it |
| PolesStore.SQLiteDatabase.RecordReminderSent | STN-botv2/database/sqlite_manager.py:644-662 | succeeds exactly when the pair has a row; the table becomes the reminded table |
| PolesStore.SQLiteDatabase.ClearAllData | STN-botv2/database/sqlite_manager.py:754-774 | every table is emptied and the default pole re-inserted |
| PolesStore.SQLiteDatabase.SyncGoogleFormsResponses | STN-botv2/database/sqlite_manager.py:960-1113 | people, expected lists and responses are those of the sync over the whole collection (`PolesSyncFold`); the counts are those of the collection's outcomes (`SyncTally`: one error per unknown Google id, each form's submission counts, and its reversals as updates), so updates plus errors count every submission with an email to a known form, every unknown Google id and every reversal (`SyncReverts`); created people never exceed updates, are appended, and the last sync time is set |
| PolesStore.SQLiteDatabase.SyncForm | STN-botv2/database/sqlite_manager.py:977-1097 | for one form, marks, creations and errors are the submissions' counts (`SubmissionsTally`), so marks plus errors count the submissions with an email; the tables are the submissions followed by the reversal step (`FormSynced`), the reversals are those that step counts (`FormReverts`), and afterwards no expected person with an email absent from the submissions has a responded row |
| PolesStore.SQLiteDatabase.SyncEntries | STN-botv2/database/sqlite_manager.py:981-1078 | the submission loop: the counts are `SubmissionsTally` of the submissions, so marks plus errors count the submissions with an email and creations never exceed marks; the people list only grows, the set of responded emails is collected, and the tables are those of the submissions applied in order (`SubmissionsFold`) |
| PolesStore.SQLiteDatabase.SyncSubmission | STN-botv2/database/sqlite_manager.py:984-1078 | a submission is skipped exactly when it has no email; a created person is always marked; the outcome is `StepOutcome` of the old tables and the new tables are one `SubmissionStep` of the old |
| PolesStore.SQLiteDatabase.CreditSubmission | STN-botv2/database/sqlite_manager.py:992-1078 | a submission with an email is credited as `CreditFor` says (the expected match, else the email match, else a created person, else a refusal counted as an error); a known person's rows are marked when the pair has one, which the outcome reports; a created person joins the people and the form's expected list with a row that is marked |
| PolesStore.SQLiteDatabase.Enrol | STN-botv2/database/sqlite_manager.py:1025-1066 | a person the sync creates is stored exactly when add_person accepts them, and then joins the form's expected list and gets a row that is marked; otherwise nothing changes |
| PolesStore.SQLiteDatabase.MatchPerson | STN-botv2/database/sqlite_manager.py:992-1006 | the first expected person with that normalised email, else the person with that email ignoring case |
| PolesStore.SQLiteDatabase.CreatePerson | STN-botv2/database/sqlite_manager.py:1009-1059 | a created person is stored exactly when add_person accepts it, and then joins the form's expected people and gets an unresponded row |
| PolesStore.SQLiteDatabase.FindExpected | STN-botv2/database/sqlite_manager.py:994-1000 | the first expected person whose stored email normalises to the submitted email |
| PolesStore.SQLiteDatabase.RevertAbsent | STN-botv2/database/sqlite_manager.py:1083-1097 | the new rows are those of the reversal loop (`RevertAll`) and the count is the rows it reverted (`RevertCount`, at most one per expected person); every expected person with an email absent from the submissions is left without a responded row, and every other row is unchanged |
| PlainStore.PlainSyncName | STN-botv2/streamlit_app.py:591-593 | the name of a created person is the stripped "first last" or a prefix of the email without '@' |
| PlainStore.SetRespondedOnlyMarks | STN-botv2/streamlit_app.py:438-456 | marking a pair changes rows only by marking them responded, and adds no row with a new id |
| PlainStore.OnlyMarkedTransitive | STN-botv2/streamlit_app.py:583-613 | changes made only by marking rows compose |
| PlainStore.PlainStepCounts | STN-botv2/streamlit_app.py:584-613 | one submission counts one update or one error exactly when it has an email; a created person (a fresh id, so no row) counts an error; people are only appended; rows are only marked and stay away from the fresh ids |
| PlainStore.PlainEntriesCounts | STN-botv2/streamlit_app.py:583-613 | over a form's submissions, updates plus errors are the submissions with an email, creations never exceed errors and are the people appended, and rows are only marked |
| PlainStore.PlainSyncCounts | STN-botv2/streamlit_app.py:569-626 | over the whole collection, updates plus errors are the submissions with an email to known forms, creations never exceed errors and are the people appended, and rows are only marked |
| PlainStore.PlainStepMarks | STN-botv2/streamlit_app.py:600-613 | a submission whose credited person has a row for the form leaves all that person's rows for the form responded, and un-marks nothing |
| PlainStore.PlainFoldMarks | STN-botv2/streamlit_app.py:583-613 | after a form's submissions, every person one of them marked has all rows for the form responded, and every fully responded pair stays so |
| PlainStore.PlainSyncMarks | STN-botv2/streamlit_app.py:569-626 | after the whole sync, every person a submission to a known form marked still has all rows for that form responded, and no fully responded pair is un-marked |
| PlainStore.PlainHealthCheck | STN-botv2/streamlit_app.py:678-703 | the report counts the orphaned responses and is healthy exactly when no response lacks its person or form |
| PlainStore.SQLiteDatabase.constructor | STN-botv2/streamlit_app.py:19-23 | a new database has empty tables and no last sync |
| PlainStore.SQLiteDatabase.AddPerson | STN-botv2/streamlit_app.py:112-152 | succeeds exactly when no stored person has the email (ignoring case) or the psid, and only then appends the person |
| PlainStore.SQLiteDatabase.DeletePerson | STN-botv2/streamlit_app.py:239-254 | removes the person row only and reports whether it existed |
| PlainStore.SQLiteDatabase.AddForm | STN-botv2/streamlit_app.py:256-305 | succeeds exactly when the form is accepted, and only then stores it, its expected people and one unresponded row per expected person |
| PlainStore.SQLiteDatabase.MarkAsResponded | STN-botv2/streamlit_app.py:438-456 | succeeds exactly when the pair has a row, and only then marks it |
| PlainStore.SQLiteDatabase.RecordReminderSent | STN-botv2/streamlit_app.py:458-476 | succeeds exactly when the pair has a row; the table becomes the reminded table |
| PlainStore.SQLiteDatabase.ClearAllData | STN-botv2/streamlit_app.py:705-722 | every table is emptied and the last sync forgotten |
| PlainStore.SQLiteDatabase.SyncGoogleFormsResponses | STN-botv2/streamlit_app.py:569-626 | people and responses are those of the sync over the whole collection (`PlainSyncFold`, unknown Google ids skipped) and the counts are `PlainSyncTally`; updates plus errors count the submissions with an email to known forms, created people never exceed errors (a created person has no row to mark), rows are only marked, and the last sync time is set |
| PlainStore.SQLiteDatabase.SyncEntries | STN-botv2/streamlit_app.py:583-613 | one form's loop: people and responses are those of the submissions in order (`PlainEntriesFold`) and the counts `PlainEntriesTally`; updates plus errors count the submissions with an email, created people never exceed errors, rows are only marked |
| PlainStore.SQLiteDatabase.SyncSubmission | STN-botv2/streamlit_app.py:584-613 | a submission without an email is ignored; a person found by email ignoring case, or created, is marked when their row exists; a newly created person is never marked; the outcome is `PlainOutcomeOf` the credit `PlainCreditFor` gives, and the new tables are one `PlainStep` of the old |
| StoreV3.FormRows | STN-botv3/database.py:180-210 | add_form inserts one unresponded, never-reminded row per listed person, in order, the k-th with the k-th new id |
| StoreV3.MarkPair | STN-botv3/database.py:237-243 | every row of the pair is marked responded and every other row is unchanged |
| StoreV3.RemindPair | STN-botv3/database.py:280-288 | every row of the pair records now as its last reminder and every other row is unchanged |
| StoreV3.PairUpdatesSpec | STN-botv3/database.py:237-288 | marking leaves the pair's rows responded; reminding changes only the last reminder; a pair without rows leaves the table unchanged |
| StoreV3.NonResponders | STN-botv3/database.py:245-278 | every returned pair is an unanswered response of the form together with its person |
| StoreV3.NonRespondersComplete | STN-botv3/database.py:245-278 | every unanswered response of the form whose person exists is returned with that person |
| StoreV3.Database.constructor | STN-botv3/database.py:11-14 | a new database holds only the default pole and no groups, people, forms or responses |
| StoreV3.Database.InitTables | STN-botv3/database.py:16-80 | the default pole is inserted only into an empty poles table |
| StoreV3.Database.AddPerson | STN-botv3/database.py:81-91 | succeeds exactly when the id is new, and only then appends the person |
| StoreV3.Database.GetPerson | STN-botv3/database.py:104-112 | a stored person with that id, or none exactly when no person has it |
| StoreV3.Database.DeletePerson | STN-botv3/database.py:114-119 | removes the people with that id and reports whether one existed |
| StoreV3.Database.AddPole | STN-botv3/database.py:120-130 | succeeds exactly when both the id and the name are new, and only then appends the pole |
| StoreV3.Database.GetPoles | STN-botv3/database.py:132-141 | exactly the active poles |
| StoreV3.Database.GetPole | STN-botv3/database.py:143-153 | a stored pole with that id, or none exactly when no pole has it |
| StoreV3.Database.AddGroup | STN-botv3/database.py:154-164 | succeeds exactly when the id is new, and only then appends the group |
| StoreV3.Database.GetGroups | STN-botv3/database.py:166-179 | exactly the active groups |
| StoreV3.Database.AddForm | STN-botv3/database.py:180-210 | succeeds exactly when the form and its rows are accepted, and only then stores the form and its rows |
| StoreV3.Database.GetFormsByPole | STN-botv3/database.py:224-236 | exactly the stored forms of that pole |
| StoreV3.Database.MarkResponded | STN-botv3/database.py:237-243 | true exactly when the pair has a row; the pair's rows are marked |
| StoreV3.Database.RecordReminder | STN-botv3/database.py:280-288 | the pair's rows record now as their last reminder |
| ServicesV3.GetResponses | STN-botv3/services.py:12-26 | a failed fetch gives no email; otherwise at most one email per fetched entry |
| ServicesV3.GetResponsesMembership | STN-botv3/services.py:12-26 | an email is returned exactly when some non-empty fetched email normalises to it |
| ServicesV3.SyncStep | STN-botv3/services.py:66-75 | one loop step keeps every row synced over one more listed person and counts that person when they exist and have an email |
| ServicesV3.MarkedWithinCounted | STN-botv3/services.py:59-77 | the people whose row the loop marks are never more than the people it counts |
| ServicesV3.MessageBody | STN-botv3/services.py:83-89 | the text after the name placeholder starts with a comma |
| ServicesV3.GreetingKept | STN-botv3/services.py:98 | replacing the placeholder in a greeting, placeholder and comma-led rest starts the message with greeting, name and comma |
| ServicesV3.DefaultMessageGreets | STN-botv3/services.py:83-98 | the personalised default message starts with "Hello", the person's name and a comma |
| ServicesV3.RemindStep | STN-botv3/services.py:93-104 | one loop step keeps every row reminded for exactly the delivered non-responders seen so far |
| ServicesV3.ReminderService.constructor | STN-botv3/services.py:53-57 | the service works on the given database |
| ServicesV3.ReminderService.SyncForm | STN-botv3/services.py:59-77 | total counts the listed people who exist and have an email, updated is the number of those whose email was submitted and whose pair had a row (`MarkedIn`), which never exceeds total; each row becomes its synced value, and no responded row is un-marked |
| ServicesV3.ReminderService.SyncPerson | STN-botv3/services.py:67-75 | one listed person: counted exactly when they exist with an email; marked exactly when their email was submitted and the pair had a row; the pair is marked exactly when their email was submitted |
| ServicesV3.ReminderService.SendReminders | STN-botv3/services.py:79-106 | sent plus failed is the number of non-responders, sent counts the deliveries of the custom or default message, and exactly the delivered people's rows record the reminder |
| GoogleForms.AsWrittenNeverExempts | STN-botv2/services/google_forms_service.py:53 | the error test as written exempts no message at all, not even "missing formId" itself, because the needle keeps an upper-case letter while the message is lower-cased |
| GoogleForms.ErrorExemptExample | STN-botv2/services/google_forms_service.py:52-53 | the corrected test exempts the App Script's "missing formId" message |
| GoogleForms.ErrorExemptCaseInsensitive | STN-botv2/services/google_forms_service.py:53 | the corrected test gives the same answer for a message and its lower-cased form |
| GoogleForms.GetFormResponses | STN-botv2/services/google_forms_service.py:28-100 | the two loops build the unified list of the reply with the error test as written: empty on a network failure or any App Script error, else the detailed entries followed by the new email-only ones, as the corrected test would give |
| GoogleForms.UnifyAsWritten | STN-botv2/services/google_forms_service.py:49-93 | as written, every App Script error empties the list, the "missing formId" answer included; without an error the as-written and the corrected lists agree |
| GoogleForms.ExemptAnswerDropped | STN-botv2/services/google_forms_service.py:49-90 | an answer whose error the corrected test exempts, carrying one email, gives no entry as written and that email's entry with the corrected test |
| GoogleForms.CollectDetailed | STN-botv2/services/google_forms_service.py:67-76 | the first loop keeps, in order, each detailed person with an email, normalised |
| GoogleForms.CollectEmailOnly | STN-botv2/services/google_forms_service.py:79-90 | the second loop adds, in order, an email-only entry for each email whose normalised form is not among the detailed emails |
| GoogleForms.DetailedPartShape | STN-botv2/services/google_forms_service.py:67-76 | every detailed entry is marked detailed and carries a normalised email |
| GoogleForms.EmailOnlyPartShape | STN-botv2/services/google_forms_service.py:79-90 | every email-only entry is marked email-only, has a normalised email not among the detailed emails, no name and no timestamp |
| GoogleForms.UnifyParts | STN-botv2/services/google_forms_service.py:49-93 | whichever error test is used, a rejected error gives no entries; otherwise the result is the detailed part followed by the email-only part |
| GoogleForms.UnifyDetailedFirst | STN-botv2/services/google_forms_service.py:66-90 | no detailed entry follows an email-only entry |
| GoogleForms.UnifyEmailOnlyIsNew | STN-botv2/services/google_forms_service.py:78-90 | no email-only entry repeats the email of a detailed entry |
| GoogleForms.DetailedThenNew | STN-botv2/services/google_forms_service.py:78-90 | a detailed list followed by entries with new emails has no email shared between a detailed and an email-only entry |
| GoogleForms.UnifyNormalized | STN-botv2/services/google_forms_service.py:70-81 | every returned email is already normalised |
| GoogleForms.GetMultipleFormsResponses | STN-botv2/services/google_forms_service.py:103-146 | the loop builds the dictionary from each requested form id to its unified responses, with the error test as written |
| GoogleForms.PutSpec | STN-botv2/services/google_forms_service.py:137 | storing a key in the dictionary keeps keys unique, maps the key to the new value and keeps every other entry |
| GoogleForms.CollectBySpec | STN-botv2/services/google_forms_service.py:126-137 | the dictionary has each requested id once as a key, no other key, and the value computed for it |
| GoogleForms.CollectSpec | STN-botv2/services/google_forms_service.py:103-146 | the collected responses have each requested Google id once, no other key, and for each the as-written unified responses of its reply |
| GoogleForms.GetFormUrlIff | STN-botv2/services/google_forms_service.py:207-236 | the form URL is non-empty exactly when the form id is valid, and is then the Google Forms view URL around the id |
| GoogleForms.TestConnection | STN-botv2/services/google_forms_service.py:148-205 | with a test id, success with the number of as-written unified responses; without one, the as-written classification of the bare reply |
| GoogleForms.TestConnectionOutcomes | STN-botv2/services/google_forms_service.py:169-205 | as written, the script is never reported reachable; a connection error happens exactly when the script is unreachable, a reply with data is reported as data, and one with neither error nor data is unexpected; with the corrected test a "missing formId" answer means reachable |
| GoogleForms.ListEmailsBound | STN-botv2/services/google_forms_service.py:260-263 | the non-empty emails of a list are at most its length, and none is empty |
| GoogleForms.AllEmailsBound | STN-botv2/services/google_forms_service.py:258-263 | the distinct emails never exceed the total number of responses |
| GoogleForms.SyncSummaryBounds | STN-botv2/services/google_forms_service.py:248-277 | forms with responses never exceed the forms, unique emails never exceed the responses, the success rate lies in 0..100 and is 0 without forms |
| Messenger.Digits | STN-botv2/services/messenger_service.py:222 | a zero-padded number field has exactly the given width and only digits |
| Messenger.DateText | STN-botv2/services/messenger_service.py:222 | the "%d/%m/%Y" text of a date has ten characters, slashes at positions 2 and 5 and digits elsewhere |
| Messenger.CivilEpoch | STN-botv2/services/messenger_service.py:222 | day 0 of the calendar conversion is 1 January 1970 |
| Messenger.CivilLeapDay | STN-botv2/services/messenger_service.py:222 | day 19782 is 29 February 2024 |
| Messenger.DateTextEpoch | STN-botv2/services/messenger_service.py:222 | the date text of time 0 is "01/01/1970" |
| Messenger.DateTextLeapDay | STN-botv2/services/messenger_service.py:222 | the last second of 29 February 2024 is shown as "29/02/2024" |
| Messenger.TemplateVerbatim | STN-botv2/services/messenger_service.py:225-232 | a template without braces is returned unchanged |
| Messenger.UnknownFieldFallsBack | STN-botv2/services/messenger_service.py:225-232 | a template whose first field names an unknown variable (with or without a conversion, format spec, attribute or index after the name) gives the fallback message |
| Messenger.VerbatimFieldFilled | STN-botv2/services/messenger_service.py:225-232 | a template of plain text around one known field, written `{key}`, `{key!s}`, `{key:}` or `{key!s:}`, is filled with that variable's value |
| Messenger.FieldThenText | STN-botv2/services/messenger_service.py:226 | formatting a known field followed by plain text gives the variable's value, that text, then the formatted rest |
| Messenger.FormatFourFields | STN-botv2/services/messenger_service.py:226 | a template of plain text around four known fields formats to the text with each field replaced by its value |
| Messenger.DefaultTemplateParts | STN-botv2/config/settings.py:140-147 | the default reminder template is plain text around the fields name, form_name, date_envoi and form_url, in that order |
| Messenger.DefaultPartsBraceFree | STN-botv2/config/settings.py:140-147 | the plain-text parts of the default template hold no brace |
| Messenger.ReminderVarsKeys | STN-botv2/services/messenger_service.py:218-223 | the template variables are exactly name, form_name, form_url and date_envoi |
| Messenger.DefaultReminderText | STN-botv2/services/messenger_service.py:199-232 | without a custom template the message is the default template filled with the person's name (or the generic greeting), the form's name, the send date (or "récemment") and the form URL |
| Messenger.DefaultTemplateFormats | STN-botv2/services/messenger_service.py:226 | the default template formats, with any values for its four fields, to its text around those values |
| Messenger.CustomTemplateVerbatim | STN-botv2/services/messenger_service.py:212-213 | a non-empty custom template without braces is sent as it is |
| Messenger.UnknownPlaceholderFallsBack | STN-botv2/services/messenger_service.py:229-232 | a custom template whose first field names an unknown variable, with or without a suffix, gives the fallback "Hello" message |
| Messenger.NameConvertedFilled | STN-botv2/services/messenger_service.py:199-232 | a custom template around `{name}`, `{name!s}`, `{name:}` or `{name!s:}` gives the text with the person's name, or the generic greeting for an empty name |
| Messenger.ValidatePsidExamples | STN-botv2/services/messenger_service.py:366-380 | a ten-digit psid is valid; a nine-digit one, one with letters and the empty one are not |
| Messenger.ValidatePsidExtend | STN-botv2/services/messenger_service.py:376-380 | appending digits to a valid psid keeps it valid |
| Messenger.Classify | STN-botv2/services/messenger_service.py:76-130 | an outcome is "sent" exactly for an HTTP 200 reply |
| Messenger.ClassifyNames | STN-botv2/services/messenger_service.py:76-130 | timeouts, network errors and other exceptions are named timeout, network_error and unexpected_error; an HTTP reply is sent for 200 and failed otherwise |
| Messenger.Kept | STN-botv2/services/messenger_service.py:249-251 | below 1000 entries the history is kept whole, otherwise only its last 900 entries |
| Messenger.AddedSpec | STN-botv2/services/messenger_service.py:246-258 | adding an entry puts it last after a suffix of the old history, and a history within 1000 entries stays within 1000 |
| Messenger.LoggedBounded | STN-botv2/services/messenger_service.py:246-258 | logging any number of entries keeps a bounded history within 1000 entries, and the last one logged is last |
| Messenger.Paced | STN-botv2/services/messenger_service.py:234-244 | the time after the rate limit is at least now and at least one second after the previous message |
| Messenger.MessengerService.constructor | STN-botv2/services/messenger_service.py:22-35 | the history is the session's, or empty, and no message has been sent yet |
| Messenger.MessengerService.AddToHistory | STN-botv2/services/messenger_service.py:246-261 | the history becomes the old one with the entry added |
| Messenger.MessengerService.ApplyRateLimit | STN-botv2/services/messenger_service.py:234-244 | the clock and the last message time become the paced time |
| Messenger.MessengerService.SendMessage | STN-botv2/services/messenger_service.py:37-135 | the result succeeds exactly on an HTTP 200 reply, carries the classified status, the psid, the name and the paced time, and is added to the history |
| Messenger.MessengerService.SendBulkMessages | STN-botv2/services/messenger_service.py:137-197 | one result per message in order, each describing its message; successes are counted, successes plus failures make the total, every result is logged and every message waits its pacing |
| Messenger.MessengerService.GetRecentHistory | STN-botv2/services/messenger_service.py:263-278 | exactly the history entries within the last given hours, in order |
| Messenger.MessengerService.GetStatistics | STN-botv2/services/messenger_service.py:280-314 | over the window's entries: the total, the successes and the failures that make up the rest, all zero when the window is empty |
| Messenger.MessengerService.ClearHistory | STN-botv2/services/messenger_service.py:354-360 | the history becomes empty |
| Reminders.ConfigsSpec | STN-botv2/services/reminder_service.py:43-51 | every configuration comes from a form with a Google id, every such form gives one, and there are no more configurations than forms |
| Reminders.MessagesLength | STN-botv2/services/reminder_service.py:279-291 | when every message builds there is one message per person with a psid |
| Reminders.MessagesAddressed | STN-botv2/services/reminder_service.py:279-291 | every message goes to a non-empty psid of one of the listed people, under that person's id |
| Reminders.MessagesBuilt | STN-botv2/services/reminder_service.py:279-291 | when every person's text builds, the message list builds |
| Reminders.MessagesNoneExtends | STN-botv2/services/reminder_service.py:279-291 | once a message fails to build, the whole list fails, whatever follows |
| Reminders.DueAllMessaged | STN-botv2/services/reminder_service.py:174-187 | every person due a reminder (who has a psid by the query) gets a message |
| Reminders.DefaultMessagesBuild | STN-botv2/services/reminder_service.py:284 | with the default template every message builds |
| Reminders.SuccessCount | STN-botv2/services/reminder_service.py:302-312 | the bulk send's success count is the number of people whose message was delivered |
| Reminders.RecordStep | STN-botv2/services/reminder_service.py:305-308 | recording the reminders of one more delivered message reminds that person's pair |
| Reminders.SucceededIds | STN-botv2/services/reminder_service.py:302-312 | the recorded ids are at most the messages, each the id of one of them |
| Reminders.SetRemindedReminds | STN-botv2/services/reminder_service.py:305-308 | recording one reminder changes only the reminder columns of the form's rows |
| Reminders.RecordedForReminds | STN-botv2/services/reminder_service.py:302-312 | recording a form's reminders keeps every row, pair and answer, never lowers a reminder count, and leaves other forms' rows unchanged |
| Reminders.FormSendingSpec | STN-botv2/services/reminder_service.py:174-191 | every person due is sent exactly one message, so sent plus failed is the number due and "no valid psid" never occurs; "no reminder needed" exactly when nobody is due; only reminder columns of the form's rows change |
| Reminders.SendFoldStops | STN-botv2/services/reminder_service.py:172-187 | once a form's message cannot be built, the later forms change nothing |
| Reminders.SendFoldSpec | STN-botv2/services/reminder_service.py:172-193 | the loop's entries are named after the forms in order, it completes exactly when every form has an entry, forms with nobody due count zero, and sending never marks or un-marks an answer |
| Reminders.ResultsByNameKeys | STN-botv2/services/reminder_service.py:177-189 | the per-form results are keyed by exactly the names of the processed forms |
| Reminders.EntrySnoc | STN-botv2/services/reminder_service.py:172-191 | adding the next form's result keeps the results named after the forms in order, adds its counts to the totals and keeps forms with nobody due at zero |
| Reminders.SumsSnoc | STN-botv2/services/reminder_service.py:190-191 | the totals of the results extended by one entry grow by that entry's counts |
| Reminders.ReminderService.constructor | STN-botv2/services/reminder_service.py:20-26 | the service works on the given store and messenger |
| Reminders.ReminderService.FormConfigs | STN-botv2/services/reminder_service.py:44-51 | the loop builds one configuration per form with a Google id, in order |
| Reminders.ReminderService.SyncConfigs | STN-botv2/services/reminder_service.py:60-83 | an exception leaves the store unchanged and reports an error; otherwise success for every configuration, the people, expected lists and responses are the store's sync (`PolesSyncFold`) over what was fetched for the configurations' Google ids, the stats are that sync's counts (`SyncTally`), the last sync time is set and no person is removed |
| Reminders.ReminderService.SyncAllForms | STN-botv2/services/reminder_service.py:28-83 | no configuration gives a warning and an exception an error, both changing nothing; otherwise success, and the tables and stats are the store's sync over the responses fetched for every active form with a Google id; anything but success processes no form; forms are never changed |
| Reminders.ReminderService.SyncSpecificForm | STN-botv2/services/reminder_service.py:85-134 | an unknown form or one without a Google id reports an error and changes nothing; an exception changes nothing; otherwise the tables and stats are the store's sync over the responses fetched for that one form |
| Reminders.ReminderService.BuildMessages | STN-botv2/services/reminder_service.py:279-291 | the loop builds the message list of the people with a psid |
| Reminders.ReminderService.SendToPeople | STN-botv2/services/reminder_service.py:271-316 | no people gives 0/0; a message that cannot be built changes nothing; otherwise sent plus failed is the number of messages, sent counts deliveries and exactly the delivered people's pairs record the reminder |
| Reminders.ReminderService.ProcessForm | STN-botv2/services/reminder_service.py:174-191 | nobody due gives 0/0 "no reminder needed" and sends nothing; a message that cannot be built changes nothing; otherwise the result and the new responses are those of `FormSending`: sent is the number of delivered messages, failed the rest, and exactly the delivered people's pairs record a reminder |
| Reminders.ReminderService.SendForForms | STN-botv2/services/reminder_service.py:172-193 | the entries, the responses after and whether every form was processed are those of the sending loop over the forms (`SendFold`), which stops at the first form whose message cannot be built; the entries are named after the forms in order, the totals are their sums, and forms with nobody due count zero |
| Reminders.ReminderService.SendRemindersForAllForms | STN-botv2/services/reminder_service.py:138-208 | a failed sync stops with "sync_failed" and changes nothing; no active form gives "no_forms"; otherwise the people and responses the sync leaves (or the old ones without a sync) are sent to by the sending loop over the active forms (`SendFold`), whose entries and responses the report and the store hold, and the totals are the entries' sums; forms are never changed |
| Reminders.ReminderService.SendRemindersForForm | STN-botv2/services/reminder_service.py:210-269 | an unknown form changes nothing; a sync failure does not stop the send; otherwise the form is sent to from the responses the sync leaves (or the old ones), and the report's status, counts and note and the new responses are those of `FormSending`; nobody due or no valid psid sends nothing |
| Reminders.ReminderService.PreviewReminders | STN-botv2/services/reminder_service.py:351-412 | for one form, none exactly when it is unknown, else the number of people due; for all forms, the sum over the active forms with one entry each |
| EnhancedModels.ParseRole | STN-botv2/database/enhanced_models.py:9-13 | a parsed role is stored as the string it was read from |
| EnhancedModels.RoleRoundTrip | STN-botv2/database/enhanced_models.py:9-13 | every role is read back from the string it is stored as |
| EnhancedModels.ParseStatus | STN-botv2/database/enhanced_models.py:15-19 | a parsed person status is stored as the string it was read from |
| EnhancedModels.StatusRoundTrip | STN-botv2/database/enhanced_models.py:15-19 | every person status is read back from the string it is stored as |
| EnhancedModels.PermissionOrder | STN-botv2/database/enhanced_models.py:40-52 | managing a pole implies accessing it; an admin does both for every pole; a viewer never manages; access without management means a viewer assigned the pole; a non-admin without poles accesses none |
| EnhancedModels.FullName | STN-botv2/database/enhanced_models.py:71-76 | with both name parts the full name is first, a space, then last; otherwise it is the name |
| EnhancedModels.FullNameEmptyIff | STN-botv2/database/enhanced_models.py:71-76 | the full name is empty exactly when a part is missing and the name is empty |
| EnhancedModels.DisplayStatusInjective | STN-botv2/database/enhanced_models.py:77-86 | the three statuses show three different labels, each starting with its own emoji |
| EnhancedModels.StatusEmojiInjective | STN-botv2/database/enhanced_models.py:105-114 | the three message statuses show three different one-character emoji |
| EnhancedStore.AddMissingSpec | STN-botv2/database/enhanced_sqlite_manager.py:143-146 | adding columns keeps the existing ones first, adds only absent ones, leaves every wanted column present and adds nothing the second time |
| EnhancedStore.MigrationSpec | STN-botv2/database/enhanced_sqlite_manager.py:125-146 | the people migration keeps the existing columns, adds only absent ones, leaves all eight new columns present and is idempotent |
| EnhancedStore.DefaultAdminSpec | STN-botv2/database/enhanced_sqlite_manager.py:148-169 | the admin row is added only to an empty users table, with the admin role, and a second run changes nothing |
| EnhancedStore.InsertUser | STN-botv2/database/enhanced_sqlite_manager.py:225-248 | the insert succeeds exactly when no stored user shares the id, username or email, and keeps those unique |
| EnhancedStore.DuplicateUserRejected | STN-botv2/database/enhanced_sqlite_manager.py:225-248 | after a user is inserted, another with the same username or email is refused |
| EnhancedStore.NewUser | STN-botv2/database/enhanced_sqlite_manager.py:225-248 | a created user without poles gets an empty pole list, is active and has never logged in |
| EnhancedStore.AccessibleMatchesPermission | STN-botv2/database/enhanced_sqlite_manager.py:250-272 | an unknown user accesses no pole; a known non-admin's accessible poles agree with the access permission of the user model; an admin accesses the active poles |
| EnhancedStore.StatusFieldsExact | STN-botv2/database/enhanced_sqlite_manager.py:337-365 | the status is always set, the Facebook id and the error only when given, the delivery time exactly for "delivered"; untouched columns keep their values |
| EnhancedStore.AutoName | STN-botv2/database/enhanced_sqlite_manager.py:432 | the name of an auto-created person is never empty |
| EnhancedStore.PsidPrefix | STN-botv2/database/enhanced_sqlite_manager.py:432 | the psid prefix is a prefix of at most 8 characters, exactly 8 when the psid is long enough |
| EnhancedStore.AutoNameFallback | STN-botv2/database/enhanced_sqlite_manager.py:432 | a blank "first last" gives "Utilisateur" and the psid prefix; a first name with a visible character gives the stripped "first last" |
| EnhancedStore.AutoCreateIdempotent | STN-botv2/database/enhanced_sqlite_manager.py:420-463 | a second webhook from the same psid returns the same id and creates nobody |
| EnhancedStore.AutoPersonSpec | STN-botv2/database/enhanced_sqlite_manager.py:420-463 | a new psid adds exactly one person at the end, with the new id, that psid, pending validation, auto-captured and a non-empty name |
| EnhancedStore.ValidatedSpec | STN-botv2/database/enhanced_sqlite_manager.py:483-510 | a validated person is active, records the validator and the time, and changes email and notes only when given non-empty ones |
| EnhancedStore.EnhancedSQLiteDatabase.constructor | STN-botv2/database/enhanced_sqlite_manager.py:16-20 | the store starts from the tables as they are on disk |
| EnhancedStore.EnhancedSQLiteDatabase.CreateEnhancedTables | STN-botv2/database/enhanced_sqlite_manager.py:22-123 | the people columns are migrated and the default admin created |
| EnhancedStore.EnhancedSQLiteDatabase.MigratePeopleTable | STN-botv2/database/enhanced_sqlite_manager.py:125-146 | the people columns become the migrated list |
| EnhancedStore.EnhancedSQLiteDatabase.AddColumns | STN-botv2/database/enhanced_sqlite_manager.py:143-146 | the loop adds each absent column in order |
| EnhancedStore.EnhancedSQLiteDatabase.CreateDefaultAdmin | STN-botv2/database/enhanced_sqlite_manager.py:148-169 | the users table gets the default admin when it was empty |
| EnhancedStore.EnhancedSQLiteDatabase.CreateUser | STN-botv2/database/enhanced_sqlite_manager.py:225-248 | true exactly when the insert succeeds, and only then is the user stored |
| EnhancedStore.EnhancedSQLiteDatabase.UpdateMessageStatus | STN-botv2/database/enhanced_sqlite_manager.py:337-368 | always true; the message with that id gets the built SET list, others are unchanged |
| EnhancedStore.EnhancedSQLiteDatabase.AutoCreatePersonFromWebhook | STN-botv2/database/enhanced_sqlite_manager.py:420-463 | returns the existing person's id or creates one; the webhook event is marked only when a person was created |
| EnhancedStore.EnhancedSQLiteDatabase.ValidatePerson | STN-botv2/database/enhanced_sqlite_manager.py:483-517 | an email already used by another person is refused and changes nothing; otherwise the person is validated, and true exactly when they existed |
| Validation.PendingOfSpec | STN-botv2/modules/validation.py:59-70 | the pending entries are exactly the people with a psid and no email, each flagged auto-captured with status "pending_validation" |
| Validation.GetPendingValidationsSimple | STN-botv2/modules/validation.py:52-76 | the loop returns the pending list of the people table, in table order |
| Validation.ValidatedRowTouchOnly | STN-botv2/modules/validation.py:282-291 | validating without an email and with the entry's own name changes only `updated_at` |
| Validation.ValidateSinglePerson | STN-botv2/modules/validation.py:277-316 | an email already used by another person leaves the table unchanged; otherwise the row is updated; true exactly when no clash and the id exists |
| Validation.RejectedName | STN-botv2/modules/validation.py:323 | the new name is the "[INACTIF] " prefix followed by the old name |
| Validation.RejectStacks | STN-botv2/modules/validation.py:318-336 | rejection keeps the old name after the prefix, and rejecting twice stacks a second prefix |
| Validation.RejectSinglePerson | STN-botv2/modules/validation.py:318-336 | true exactly when the id exists; that row gets the marked name and the time |
| Validation.BulkValidateContacts | STN-botv2/modules/validation.py:338-355 | success plus failed is the number of contacts, one error per failure, success counts the contacts present; every listed row is touched |
| Validation.TouchedPresent | STN-botv2/modules/validation.py:338-355 | touching rows never adds or removes an id |
| Validation.RejectAllSpec | STN-botv2/modules/validation.py:357-373 | bulk rejection keeps every row and id, leaves unlisted rows as they were and marks every listed row's name and time |
| Validation.BulkRejectContacts | STN-botv2/modules/validation.py:357-373 | success plus failed is the number of contacts, one "Échec rejet" error per failure, and the table is the bulk-rejected table |
| Validation.ValidationStatistics | STN-botv2/modules/validation.py:78-118 | total, auto-captured, with-psid, today and this-week counts as counts over the list; today <= week <= total |
| Validation.SimpleStatsAllFlagged | STN-botv2/modules/validation.py:61-68 | on the simple pending list, the auto-captured and with-psid counts both equal the total |
| Factory.Failure | STN-botv2/services/factory.py:66 | every initialisation failure message starts with "Échec initialisation " |
| Factory.RequirementsTable | STN-botv2/services/factory.py:75-94 | without settings nothing is met; unknown names need only settings; google_forms needs the script URL, messenger the page token, reminder both; a valid configuration meets every requirement |
| Factory.Get | STN-botv2/services/factory.py:23-72 | a stored instance is returned as is; a recorded error is reported without building (raised only when required); afterwards the name is settled; the caller gets an instance exactly when one is stored; only this name's entry is added |
| Factory.MissingConfigurationRecorded | STN-botv2/services/factory.py:47-56 | with requirements unmet the class is never built, no instance is returned and the recorded error names the missing configuration |
| Factory.FirstRequestBuilds | STN-botv2/services/factory.py:58-72 | with requirements met, a successful construction is returned, and a raising one records "Échec initialisation" with its message and stores no instance |
| Factory.Sticky | STN-botv2/services/factory.py:36-44 | a second request for the same name changes nothing: the same instance, or still no instance (raised exactly when required) |
| Factory.GetKeepsDisjoint | STN-botv2/services/factory.py:23-72 | no name is ever both an instance and a recorded error |
| Factory.Status | STN-botv2/services/factory.py:103-112 | the status has an entry for every instance and every recorded error |
| Factory.StatusMeaning | STN-botv2/services/factory.py:103-112 | a name is "available" exactly when it has an instance; an error shows as "error: " and the message |
| Factory.ServiceFactory.constructor | STN-botv2/services/factory.py:19-20 | both registries start empty |
| Factory.ServiceFactory.GetService | STN-botv2/services/factory.py:23-72 | the outcome and the new registries are those of `Get` on the old registries |
| Factory.ServiceFactory.Reset | STN-botv2/services/factory.py:97-100 | both registries are emptied |
| Factory.ServiceFactory.GetStatus | STN-botv2/services/factory.py:103-112 | the returned map is `Status` of the registries |
| AppV3.Repaired | STN-botv3/app.py:94-103 | the repair keeps the number of forms |
| AppV3.RepairedSpec | STN-botv3/app.py:81-108 | no poles means no change; a form with an existing pole is kept; an orphan gets the first pole's id, after which it is no longer an orphan; repairing twice is repairing once |
| AppV3.RepairOrphanedForms | STN-botv3/app.py:81-108 | the forms table becomes the repaired table, and the count is the number of orphans (0 when there is no pole) |
| AppV3.EditForms | STN-botv3/app.py:764-767 | other forms are unchanged; the edited form gets the new name, Google id, pole and people and keeps its id and creation time |
| AppV3.FreshRows | STN-botv3/app.py:770-776 | one unanswered response per selected person, in order, for this form |
| AppV3.EditResetsResponses | STN-botv3/app.py:769-776 | after the edit the form's responses are exactly the fresh rows, and every other form's responses are unchanged |
| AppV3.UpdateForm | STN-botv3/app.py:757-782 | when the statements commit, forms and responses become the edited tables; true exactly when they commit and the form exists |
| AppV3.CheckNewPerson | STN-botv3/app.py:185-195 | accepted exactly when there is a name and an email or a psid; "name required" exactly when the name is empty |
| AppV3.CheckEditedForm | STN-botv3/app.py:724-740 | accepted exactly when the name and Google id are not blank and a person is selected; then the stripped values, the pole id or "" and the people's ids are passed on |
| AppV3.EditAcceptedIsClean | STN-botv3/app.py:724-740 | an accepted edit carries a non-empty stripped name and Google id and at least one person |
| AppV3.ConfirmClick | STN-botv3/app.py:742-755 | a click deletes only when the confirmation flag was set; only that flag changes |
| AppV3.TwoClicks | STN-botv3/app.py:742-755 | the first click only sets the flag; the second attempts the deletion, and clears the flag exactly when it succeeds |
| AppV3.App.constructor | STN-botv3/app.py:10-19 | the app wraps the store with no pending confirmation |
| AppV3.App.DeleteGroup | STN-botv3/app.py:417-426 | every group with the id is removed; true exactly when one existed |
| AppV3.App.DeletePole | STN-botv3/app.py:543-552 | every pole with the id is removed; true exactly when one existed |
| AppV3.App.DeleteForm | STN-botv3/app.py:784-794 | every form with the id is removed; true exactly when one existed |
| AppV3.App.DeletePersonSafe | STN-botv3/app.py:224-237 | the two-click confirmation around deleting a person |
| AppV3.App.DeleteGroupSafe | STN-botv3/app.py:387-400 | the two-click confirmation around deleting a group |
| AppV3.App.DeletePoleSafe | STN-botv3/app.py:514-527 | the two-click confirmation around deleting a pole |
| AppV3.App.DeleteFormSafe | STN-botv3/app.py:742-755 | the two-click confirmation around deleting a form |
| AppV3.App.PoleDeleteClicked | STN-botv3/app.py:455-461 | a pole with forms is never deleted and its flag is untouched; otherwise the two-click confirmation applies; a deleted pole leaves no form pointing at it |
| AppV3.App.AddPersonSubmitted | STN-botv3/app.py:185-195 | the person is added exactly when the form is accepted and the id is new |
| AppV3.App.SaveEditedForm | STN-botv3/app.py:724-782 | a rejected edit changes nothing; an accepted one updates the form and resets its responses when the statements commit |
| Relations.OrphansZeroIff | STN-botv2/database/sqlite_manager.py:718-730 | the orphan count is zero exactly when no response points at a missing person or form |
| Relations.JoinPeopleSpec | STN-botv2/database/managers.py:262-270 | every joined pair is a response of the list with the person it names; there are no more pairs than responses |
| Relations.JoinPeopleComplete | STN-botv2/database/managers.py:262-270 | every response whose person exists appears in the join |
| Relations.SyncEmailIff | STN-botv2/database/managers.py:416-418 | a submission is kept by the sync exactly when its lower-cased, stripped email is not empty |
| Text.FormatLiteral | STN-botv2/services/messenger_service.py:226 | `str.format` copies a brace-free literal unchanged in front of the rest |
| Text.FormatField | STN-botv2/services/messenger_service.py:226 | a `{key}` field with a known key is replaced by its value |
| Text.FormatPlaceholder | STN-botv2/services/messenger_service.py:226 | a brace-free field followed by the rest formats to the field's value before the formatted rest, or to the field's error |
| Text.ArgNameOf | STN-botv2/services/messenger_service.py:226 | the argument name of a field is the key before its first '.', '[', '!' or ':' |
| Text.FormatVerbatimField | STN-botv2/services/messenger_service.py:226 | a field `{key}`, `{key!s}`, `{key:}` or `{key!s:}` with a known key is replaced by its value |
| Text.FormatUnknownField | STN-botv2/services/messenger_service.py:226 | a field whose argument name is an unknown key raises KeyError for that key, whatever conversion, format spec, attribute or index follows the name |
| Text.FormatOneField | STN-botv2/services/messenger_service.py:226 | a template with one known field formats to the text around it with the value in place |
| Text.StripLowerIdempotent | STN-botv2/database/managers.py:78 | normalising an email twice is normalising it once |

## Left out

- Streamlit rendering is not modelled: the `show_*` pages, widgets, reruns, `st.stop`, `st.error` and the other user messages, logging and `print`. Only the data logic behind the pages is modelled.
- The add-pole and add-group forms of `STN-botv3/app.py` are not modelled. Their input checks are a required name and, for a group, at least one member, like the person and form checks that are modelled.
- HTTP calls to the Graph API and the Apps Script web app are not modelled. A reply is a parameter: a `GoogleForms.Reply` value or a Messenger transport function. A request that raises and a body that is not JSON are both the `Unreachable` reply.
- The webhook service, `authenticate_user`, `add_message_to_history`, the message-history readers, `log_webhook_event` and `get_pending_validations` of the enhanced store are not modelled. They are single SQL statements or network handlers with no bookkeeping beyond one INSERT or SELECT.
- Password hashing (PBKDF2) and `compare_digest` are not modelled. The stored hash is a parameter.
- `get_dashboard_stats`, `test_all_connections` and `cleanup_orphaned_data` of the v2 reminder service are not modelled. They aggregate other calls and report floats and timings.
- `test_connection` and `export_history` of the Messenger service are not modelled. The first is an HTTP call, and the second is a copy of `get_recent_history`.
- Floating-point statistics are not modelled: `success_rate`, average percentages and response times. Only bounds on the counts they are computed from are kept (`Seqs.PercentBounds`).
- Messenger.MessengerService.ApplyRateLimit: the one-second pacing is counted in whole seconds, not as a float `time.sleep`.
- Timestamps are integer seconds, and ISO-8601 text is not parsed or printed. Messenger.DateText covers only the `%d/%m/%Y` date of the reminder text, for years written with four digits.
- Fresh uuids are a parameter `newId`. The model does not show that `uuid4` values never collide; where a collision would break a unique key, the failing INSERT is modelled.
- Messenger.FillTemplate: on a known variable, only the fields `{key}`, `{key!s}`, `{key:}` and `{key!s:}` are filled. A field that adds an attribute (`{name.x}`), an index (`{name[0]}`), the `!r` or `!a` conversion or a non-empty format spec (`{name:>10}`) gives no message (None), where Python would format the value or raise an AttributeError, TypeError or ValueError. A brace nested inside a field is taken to raise. Unknown variables give the fallback message whatever follows their name, as in Python.
- Text.Lower: lower-casing is ASCII only, and `isdigit` is the ASCII digits. Python's Unicode case mapping and Unicode digits are not modelled.
- SQLite engine semantics are not modelled: connections, implicit transactions, locking, and the sync loop's view of rows inserted over other connections. Each store method is one atomic step on the tables.
- `ORDER BY` clauses are not modelled. Queries return rows in table order, so `poles[0]` in `AppV3.RepairOrphanedForms` is the first pole in table order, not the first by name.
- The `ON DELETE CASCADE` clauses of the SQLite schemas are inert, since no connection enables foreign keys. The model deletes only the row named, as the program does.
- The poles sync's `UPDATE forms SET expected_people_ids = ?, updated_at = ?` is modelled for the expected list only: the form's `updated_at` is left as it was.
- `update_person` of the poles SQLite store is not modelled (`STN-botv2/database/sqlite_manager.py`). The in-memory store's `update_person` is modelled.
- The `python-dotenv` branch of environment loading is not modelled, and neither is the module-level `settings` object. `EnvFile` models the manual line parser that both config files fall back to.
- Of the ways an `os.environ` write can fail, `EnvFile` models the empty name and the NUL character; platform limits on the size of the environment are not modelled.
- Factory.ServiceFactory: the class-level dictionaries are fields of one object, and the service class's constructor is a `Construction` parameter that either builds an instance or raises with a message.
- The validation log written into the Streamlit session by `validate_single_person` is not modelled.
- `STN-botv3/app.py` opens its own `sqlite3` connections for the repair, `update_form` and the deletions. The model runs these as steps on the same `StoreV3.Database` tables, and the repair updates rows by position, since `forms.id` is the primary key.

## Findings

| source | as written | input that shows it | evidently intended | confidence | as-written member | corrected member |
|---|---|---|---|---|---|---|
| STN-botv2/services/google_forms_service.py:53 | `'missing formId' not in error_msg.lower()` compares a needle with an upper-case `I` against a lower-cased message; line 175 repeats the test | the App Script error "missing formId" is not recognised as the expected reply to a call without a form id, so it is logged as an error and no responses are read | compare against the lower-cased needle "missing formid" | high, not executed | GoogleForms.AsWrittenNeverExempts, GoogleForms.UnifyAsWritten, GoogleForms.ExemptAnswerDropped | GoogleForms.ErrorExemptExample, GoogleForms.ErrorExemptCaseInsensitive, GoogleForms.TestConnectionOutcomes |
