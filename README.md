# enrol_sirh: the session follow-up sync, modelled in Dafny

This project models the scheduled task `send_session_followup_information` of
the Moodle enrolment plugin `enrol_sirh`, together with the part of its
database layer (`database_interface`) that the task uses. A run of the task
takes four steps:

1. It fetches the course completions that are newer than the watermark of
   their session (`lastsyncsirh`). The completion must have a time set, its
   user must not be deleted, and the session's status must be in a filter.
   The default filter is "in progress" and "completed".
2. It groups the completions by course, then by user. When a user appears
   twice in a course, the later row wins.
3. It builds one document per session for the SIRH follow-up service:
   - a `sessionMentor` header;
   - one `utilisateurs` entry per user, with the completion date, the user's
     e-mail and names, and the SIRH codes of the user's main entity;
   - the user's SIRH identifiers, taken from the course's first SIRH
     enrolment instance when the user is enrolled in it.
4. It sends each document in bundles of at most one hundred users and checks
   every answer. Every error is traced. The task is reported to the
   scheduler as failed when `scheduledfailed` is set and some answer was
   not `true`.

The model is split along those lines:

- `base.dfy` (`Base`):
  - `Option`, `Result` and `Outcome`;
  - `Assoc`, a PHP array used as an ordered dictionary, with `Put` (`$a[$k] = $v`) and its laws.
- `php_strings.dfy` (`PhpStrings`): the PHP built-ins the code relies on.
  - `trim` with a character list, `explode`/`implode`, `array_search`, `substr` with a negative length;
  - the decimal text of an integer.
- `database_interface.dfy` (`DatabaseInterface`):
  - the tables, held as a value in a `Database` object;
  - the status clause builder, the completion query, the SIRH link query and the watermark update, each as a relational function;
  - the `DatabaseInterface` class whose methods return those functions' results;
  - the `get_instance` singleton.
- `grouping.dfy` (`Grouping`): step 2 as a function, with its last-write-wins properties.
- `payload.dfy` (`Payload`):
  - step 3 as functions: the document of each course, the payload, and the error for a course without a session;
  - the counting of the entity lookups the cache performs.
- `transmission.dfy` (`Transmission`): step 4 as functions.
  - the bundles, the calls of a run, the answers, the trace of `check_errors`;
  - the run's verdict.
- `followup_task.dfy` (`FollowupTask`): the imperative task.
  - `SirhApi` is the follow-up service, with a response oracle.
  - `SessionData` is the mutable session object whose `utilisateurs` the sending loop splices.
  - `SendSessionFollowupInformation` is the task class. Each of its methods is proved against the functions above.

The model reproduces these behaviours of the code:
- `array_search` is used as a truth value, so the user at index 0 of an instance's aggregated user list is treated as not enrolled (`Payload.FirstEnrolledUserIsMissed`).
- A course uses only the first SIRH instance found for it.
- The entity cache is consulted again whenever the cached code list is empty.
- After sending, each session object keeps only its last bundle of users.
- The task never writes a session's watermark.

Two behaviours of the code concern the watermark:
- `execute` never calls `update_last_sync_sirh_session`, so a run leaves every watermark as it was (`FollowupTask.SendSessionFollowupInformation.Execute` ensures the tables are unchanged).
- `update_record` on a missing session id changes nothing (`DatabaseInterface.WithLastSync`).

## Model

| member | source | states |
|---|---|---|
| FollowupTask.SendSessionFollowupInformation.constructor | classes/task/send_session_followup_information.php:67-77 | The task holds the singleton database interface, the given status filter and `scheduledfailed` flag (defaults: in progress and completed, and `true`), an empty trace and no failure reported. |
| FollowupTask.SendSessionFollowupInformation.Execute | classes/task/send_session_followup_information.php:90-107 | A run on the completions selected with the task's filter (the default filter when it is empty), grouped: it throws exactly when the payload step fails, with that error, and then sends nothing, traces nothing and reports nothing. Otherwise it sends exactly the bundles of every session in order, traces every error answer, and reports failure exactly when `scheduledfailed` is set and some answer was not `true`. The database tables are unchanged. |
| FollowupTask.SendSessionFollowupInformation.ProcessCompletions | classes/task/send_session_followup_information.php:97-106 | The same outcome, calls, trace and report as `Execute`, for a given grouping. |
| FollowupTask.SendSessionFollowupInformation.SendAndReport | classes/task/send_session_followup_information.php:100-106 | It sends every bundle of the session documents in order and traces each error. The failure flag is raised exactly when `scheduledfailed` is set and some call of this run was answered with an error; a flag already raised stays raised. |
| FollowupTask.SendSessionFollowupInformation.GetSessionsCompletionInformation | classes/task/send_session_followup_information.php:116-131 | The loop's result is the grouping `Group` of the completion rows in order. |
| Grouping.AddCompletionInTwoSteps | classes/task/send_session_followup_information.php:123-128 | The `isset` initialisation followed by the store is one `AddCompletion`. |
| Grouping.AddCompletionLookup | classes/task/send_session_followup_information.php:128 | One iteration sets the row's course and user to the row's time, and every other course and user keeps its entry. |
| Grouping.GroupIsLastTime | classes/task/send_session_followup_information.php:121-129 | For every course and user, the grouping holds the time of the last row about them, and holds nothing when no row is about them. |
| Grouping.GroupKeepsLastRow | classes/task/send_session_followup_information.php:121-129 | A row that no later row overrides has its time in the grouping, under its course and user. |
| Grouping.GroupEntryFromLastRow | classes/task/send_session_followup_information.php:121-129 | Every entry of the grouping comes from the last row about its course and user. |
| Grouping.GroupHasExactlyTheRowPairs | classes/task/send_session_followup_information.php:121-129 | A course and user have an entry if and only if some row is about them. |
| Grouping.GroupCourseOrder | classes/task/send_session_followup_information.php:121-129 | The grouping lists its courses in the order they first appear in the rows, which is the order in which the sessions are built and sent. |
| Grouping.GroupUserOrder | classes/task/send_session_followup_information.php:121-129 | Within a course, the grouping lists the users in the order they first appear in that course's rows, which is the order in which a session's users are cut into bundles. |
| Base.FirstAppearancesOrder | classes/task/send_session_followup_information.php:123-128 | The first-appearance list has no duplicate. An element listed before another occurs in the input before every occurrence of the other. |
| Grouping.LaterRowOverwrites | classes/task/send_session_followup_information.php:128 | Two rows for the same user and course give one course, one user, and the later time. |
| Grouping.LastOfPair | classes/task/send_session_followup_information.php:121-129 | For every row there is a row at the same or a later position about the same course and user that no later row overrides. |
| FollowupTask.SendSessionFollowupInformation.CreateDataForApi | classes/task/send_session_followup_information.php:143-249 | It fails exactly when the payload function fails, with the same error. On success, the fresh, pairwise distinct session objects encode to exactly the payload, keyed by session id in the same order. The entity lookups performed are those that `EntityLookups` counts for the users visited. |
| FollowupTask.SendSessionFollowupInformation.BuildSessions | classes/task/send_session_followup_information.php:157-245 | It fails exactly when some course has no session, with the `SessionNotFound` error of the first such course. Otherwise every object matches the partial payload of all courses. |
| FollowupTask.SendSessionFollowupInformation.AddCourse | classes/task/send_session_followup_information.php:157-176 | One turn of the course loop puts a fresh object under the session id, and the objects then match the payload of the courses so far, one course more. |
| FollowupTask.SendSessionFollowupInformation.AddSession | classes/task/send_session_followup_information.php:175-176 | It puts a fresh object for the course's session under that session's id and keeps every earlier object matching its document. |
| FollowupTask.SendSessionFollowupInformation.BuildSession | classes/task/send_session_followup_information.php:160-244 | It builds a fresh object whose header and users are those of `CourseDocument` for the course, keeps the user cache sound, and extends the entity cache and lookup count by the course's users. |
| FollowupTask.NewSessionData | classes/task/send_session_followup_information.php:175-176 | A fresh session object, different from every existing one, with the given header and user list. |
| FollowupTask.SendSessionFollowupInformation.BuildUsersInfo | classes/task/send_session_followup_information.php:185-241 | The user list of a course is `UsersInfo`: one entry per user in grouping order. The caches stay sound, and the lookup count grows as `EntityLookups` counts for the visited entities. |
| FollowupTask.SendSessionFollowupInformation.BuildUserInfo | classes/task/send_session_followup_information.php:186-240 | One user's entry is `UserInfoFor`. The user cache and the entity cache stay sound. |
| FollowupTask.SendSessionFollowupInformation.FollowUp | classes/task/send_session_followup_information.php:187-205 | The follow-up object is `FollowUpOf` the user, time and instance. |
| FollowupTask.SendSessionFollowupInformation.UserEnrolled | classes/task/send_session_followup_information.php:197-199 | The enrolment test is `EnrolledInInstance` on the instance's aggregated user ids. |
| FollowupTask.SendSessionFollowupInformation.CachedEntityCodes | classes/task/send_session_followup_information.php:219-237 | It returns the entity's SIRH codes. A code list that is missing or empty is fetched again, and the lookup count grows accordingly. |
| FollowupTask.SendSessionFollowupInformation.LookupEntityCodes | classes/task/send_session_followup_information.php:224-233 | It returns one code object per SIRH code of the entity, or none for an unknown entity, and counts one lookup. |
| Payload.SirhInstanceIsFirst | classes/task/send_session_followup_information.php:154 | The instance of a course is its first link row; there is none exactly when no link row is about the course. |
| Payload.ParseUsersIdText | classes/task/send_session_followup_information.php:198 | Trimming and splitting the database's aggregated id text gives back the decimal texts of the ids in order. |
| Payload.DecimalsContain | classes/task/send_session_followup_information.php:199 | A user's decimal text is among the ids' texts if and only if the user is among the ids. |
| Payload.EnrolledInLinkRowIff | classes/task/send_session_followup_information.php:197-199 | A user counts as enrolled if and only if the user is in the instance's list but not at its head. |
| Payload.FirstEnrolledUserIsMissed | classes/task/send_session_followup_information.php:199 | With users `{5,6}`, user 5 is not counted as enrolled and user 6 is. |
| Payload.InstanceEnrolmentIff | classes/task/send_session_followup_information.php:182-199 | A user gets SIRH identifiers if and only if the course's first instance comes from an enrolment row whose existing users include the user after the first. |
| Payload.LinkRowEnrolment | classes/database_interface.php:205-219 | On a link row built from an enrolment instance, the enrolment test holds if and only if the user is one of the instance's users other than the first. |
| Payload.CourseDocumentSirhIdentifiers | classes/task/send_session_followup_information.php:182-205 | For the user at position `i` of a course, the document entry carries that user's completion date. When the course has an SIRH instance, the instance comes from an `sirh` row of the `enrol` table for that course and carries that row's three custom fields. The three identifiers are those fields when the user is among the instance's users after the first; otherwise all three are `null`. |
| Payload.SirhInstanceFromTable | classes/task/send_session_followup_information.php:152-154 | The instance found for a course is the link row of an `sirh` enrolment instance of that course, with that instance's custom fields. |
| Payload.EntityCodesEntries | classes/task/send_session_followup_information.php:224-233 | The code list has one `identifiantSIRH` object per code of the entity, in order. |
| Payload.CodesAt | classes/task/send_session_followup_information.php:229-233 | Each code object carries the code at its position. |
| Payload.UsersInfoEntries | classes/task/send_session_followup_information.php:185-240 | One entry per user in grouping order. Each has its completion date, its main entity's codes, and an e-mail exactly when the user exists (the user's own e-mail). Users of the same entity get the same codes. |
| Payload.FirstMissing | classes/task/send_session_followup_information.php:157-160 | It finds the first course without a session, and finds none exactly when every course has one. |
| Payload.PayloadFailsIff | classes/task/send_session_followup_information.php:157-163 | The payload step fails if and only if some course has no session; the error names the first such course. |
| Payload.PayloadKeys | classes/task/send_session_followup_information.php:175 | The payload's keys are exactly the session ids of the grouped courses. |
| Payload.PayloadLastCourseWins | classes/task/send_session_followup_information.php:175-176 | A session holds the document of the last course mapped to it. |
| Payload.PayloadOneDocumentPerSession | classes/task/send_session_followup_information.php:157-245 | When no two courses share a session, the payload lists one document per course, in course order, under its session id. |
| Payload.PartialPayloadStep | classes/task/send_session_followup_information.php:175-176 | One more course puts its document under its session id. |
| Payload.CourseDocumentsStep | classes/task/send_session_followup_information.php:157-244 | One more course appends its session id and its document. |
| Payload.SessionIdsHas | classes/task/send_session_followup_information.php:167 | The session ids so far are exactly those of the courses so far. |
| Payload.EntityLookupsCount | classes/task/send_session_followup_information.php:222 | The cache looks up each distinct entity that has codes once, and looks up an entity without codes at every visit. |
| Payload.EntityLookupsOncePerEntity | classes/task/send_session_followup_information.php:222 | When every entity has codes, each distinct entity is looked up exactly once. |
| FollowupTask.SendSessionFollowupInformation.SendToApi | classes/task/send_session_followup_information.php:260-285 | Exactly the calls `RunRequests` of the documents in order are made. The trace holds exactly the error traces of those calls. The result is `true` if and only if every answer was `true`. Every object is left with its last bundle. |
| FollowupTask.SendSessionFollowupInformation.SendAll | classes/task/send_session_followup_information.php:263-282 | The session loop makes the calls of every session in order, with the trace and verdict of those calls. |
| FollowupTask.SendSessionFollowupInformation.SendNext | classes/task/send_session_followup_information.php:263-282 | One more session extends the calls, the trace and the verdict by that session's calls. |
| FollowupTask.SendSessionFollowupInformation.SendSession | classes/task/send_session_followup_information.php:265-281 | It makes the calls of one session's bundles in order, with their trace and verdict, and leaves the object with its last bundle. |
| FollowupTask.SendSessionFollowupInformation.SendFullBundles | classes/task/send_session_followup_information.php:265-275 | The `while` loop sends full bundles until at most a hundred users are left. The bundles sent followed by the bundles of the rest are the bundles of the original list. |
| FollowupTask.SendSessionFollowupInformation.SendBundle | classes/task/send_session_followup_information.php:266-274 | One turn sends the first hundred users and keeps the rest. |
| FollowupTask.SendSessionFollowupInformation.SendAndCheck | classes/task/send_session_followup_information.php:269-272 | One call and its check: exactly one request, its trace appended, and the verdict combined with the earlier ones, so a later success does not clear an earlier error. |
| FollowupTask.SessionData.SpliceFrom | classes/task/send_session_followup_information.php:266 | `array_splice($list, 100)`: it returns the users from the offset on and keeps those before it. |
| FollowupTask.SirhApi.FollowUpSession | classes/task/send_session_followup_information.php:269 | Each call records the document sent and returns the oracle's answer for that call number. |
| Transmission.ChunksFlatten | classes/task/send_session_followup_information.php:265-278 | The bundles put back together give the original user list. |
| Transmission.ChunkSizes | classes/task/send_session_followup_information.php:265-278 | Every bundle but the last has exactly a hundred users. The last has at most a hundred, and at least one when there are users. |
| Transmission.ChunksCount | classes/task/send_session_followup_information.php:265-278 | A session with `n` users takes one call when `n` is zero, and `n / 100` rounded up calls otherwise. |
| Transmission.ChunkAt | classes/task/send_session_followup_information.php:265-278 | Bundle `i` is the slice of the list that starts at `100 * i`. |
| Transmission.ChunksOf250 | classes/task/send_session_followup_information.php:265-278 | 250 users go in bundles of 100, 100 and 50. |
| Transmission.ChunksOf100 | classes/task/send_session_followup_information.php:265 | Exactly 100 users go in one call. |
| Transmission.LastChunkIsTail | classes/task/send_session_followup_information.php:274-278 | The last bundle is the tail after the full bundles, and the whole list when it has at most a hundred users. |
| Transmission.SessionRequestsCoverUsers | classes/task/send_session_followup_information.php:265-278 | Every call of a session carries its header, and together the calls carry exactly its users. |
| Transmission.AllAcceptedIff | classes/task/send_session_followup_information.php:272-284 | The run's verdict is `true` if and only if no answer was an error. |
| Transmission.AllAcceptedSnoc | classes/task/send_session_followup_information.php:281 | One more call keeps the verdict `true` exactly when it is accepted. |
| Transmission.AllAcceptedAppend | classes/task/send_session_followup_information.php:263-282 | Two runs of calls are clean together exactly when both are. |
| Transmission.CallLogsAppend | classes/task/send_session_followup_information.php:263-282 | The trace of two runs of calls is the first run's trace followed by the second's. |
| Transmission.ErrorLogCountsOne | classes/task/send_session_followup_information.php:302-319 | The trace of one answer has one failed-call line if the answer is an error and none otherwise. |
| Transmission.EveryFailureIsLogged | classes/task/send_session_followup_information.php:272-281 | Every error is traced, including those after an earlier error: the trace has one failed-call line per failed call. |
| Transmission.AllAcceptedIffNoFailure | classes/task/send_session_followup_information.php:272-284 | The result is `true` if and only if no call failed. |
| FollowupTask.SendSessionFollowupInformation.CheckErrors | classes/task/send_session_followup_information.php:293-320 | The result is `true` exactly when the answer is not `true`, and the trace grows by exactly `ErrorLog` of the answer and the data. |
| DatabaseInterface.BuildStatusCondition | classes/database_interface.php:238-245 | For a non-empty filter, the clause is `(`, the alternatives joined by ` OR `, and `)`; for an empty filter it is `)`. |
| DatabaseInterface.AppendedIsJoinPlusSeparator | classes/database_interface.php:240-242 | The loop appends the joined alternatives followed by one ` OR `. |
| DatabaseInterface.AppendedStep | classes/database_interface.php:241 | One turn of the loop appends one alternative and one separator. |
| DatabaseInterface.DropSeparator | classes/database_interface.php:244 | `substr(..., 0, -4)` removes the trailing ` OR `. |
| DatabaseInterface.DatabaseInterface.GetSessionsCompletedByUser | classes/database_interface.php:229-258 | It returns the rows `Select` gives with the given filter, or with the default filter when the given one is empty. |
| DatabaseInterface.SelectIff | classes/database_interface.php:247-257 | A row is returned if and only if it is the projection of a completion record that meets every condition of the WHERE clause. |
| DatabaseInterface.ReturnedRowsAreAfterWatermark | classes/database_interface.php:253-254 | Every returned row's session has an accepted status, and its watermark is unset or earlier than the completion. |
| DatabaseInterface.DefaultFilterSkipsArchived | classes/database_interface.php:231-236 | With the default filter, no completion of an archived session is returned. |
| DatabaseInterface.CompletionAtWatermarkIsSkipped | classes/database_interface.php:254 | A completion exactly at the watermark is not returned. |
| DatabaseInterface.CompletionAfterWatermarkIsReturned | classes/database_interface.php:254 | A completion one second after the watermark is returned. |
| DatabaseInterface.UpdatedWatermarkHidesOlderCompletions | classes/database_interface.php:268-273 | After the watermark is set to `t`, no completion at or before `t` of that session is returned. |
| DatabaseInterface.DatabaseInterface.UpdateLastSyncSirhSession | classes/database_interface.php:268-273 | Only the session table changes, by `WithLastSync`. |
| DatabaseInterface.WithLastSync | classes/database_interface.php:268-273 | The session gets the new watermark and keeps its other columns. Every other session is unchanged. A missing id changes nothing. |
| DatabaseInterface.WithLastSyncIdempotent | classes/database_interface.php:268-273 | Writing the same watermark twice is the same as writing it once. |
| DatabaseInterface.DatabaseInterface.GetAllInstanceSirhWithUserId | classes/database_interface.php:195-220 | It returns the link rows `SirhLinks` of the enrolment table. |
| DatabaseInterface.SirhLinksIff | classes/database_interface.php:205-219 | A link row is returned if and only if it is the row of an enrolment instance of method `sirh` whose course has a session and that has at least one existing user. |
| DatabaseInterface.EnrolledUsers | classes/database_interface.php:215-216 | The aggregated users are exactly the existing users enrolled through the instance. |
| DatabaseInterface.DatabaseInterface.constructor | classes/database_interface.php:44-49 | The interface wraps the given global database. |
| DatabaseInterface.InstanceSlot.GetInstance | classes/database_interface.php:56-63 | The first call creates an interface over the global database; every later call returns that same object. |
| DatabaseInterface.GetInstanceTwice | classes/database_interface.php:56-63 | Two calls in a row return the same object. |
| PhpStrings.JoinExplode | classes/task/send_session_followup_information.php:198 | Joining the pieces of `explode` gives the text back. |
| PhpStrings.ExplodeJoin | classes/task/send_session_followup_information.php:198 | Splitting joined pieces that contain no separator gives the pieces back. |
| PhpStrings.TrimSurrounded | classes/task/send_session_followup_information.php:198 | Trimming `{` and `}` from a text whose own ends are kept removes exactly the surrounding characters. |
| PhpStrings.DecimalInjective | classes/task/send_session_followup_information.php:199 | Different ids have different decimal texts, so the loose comparison is equality of ids. |
| PhpStrings.ArraySearch | classes/task/send_session_followup_information.php:182 | `array_search` returns the first position of the needle, or `false` (here `None`) when the needle does not occur. |
| PhpStrings.DropLast | classes/database_interface.php:244 | `substr($s, 0, -$n)` drops the last `n` characters, and gives the empty text when `s` is shorter. |
| Base.AssembleLastWins | classes/task/send_session_followup_information.php:175 | When a key occurs several times, it takes the value of its last occurrence. |
| Base.AssembleDistinct | classes/task/send_session_followup_information.php:175 | With distinct keys, the keys keep their given order and each takes its own value. |

## Left out

- The text of the trace is not modelled. `mtrace` lines, the service URL and `json_encode` are modelled as `LogLine` values that carry the status, the data sent, the answer or each field error.
- The HTTP call `sirh_api::follow_up_session` is an oracle indexed by call number. The file that implements it is not part of this model.
- `\core\task\manager::scheduled_task_failed` is modelled as the flag `failureReported`.
- `date('Y-m-d', $t)` is modelled as the opaque value `YmdDate(t)`, because the calendar computation is not part of the sync logic.
- The platform lookups are given as maps in `Platform`: `get_session_by_course_id`, `get_training`, `core_user::get_user`, `profile_user_record` and `entity_api::get_entity_by_name` with `get_sirh_list`.
- The exception thrown by `get_session_by_course_id` for a course without a session is modelled as `Err(SessionNotFound(courseid))`. Other exceptions (`dml_exception`, `coding_exception`) are not modelled.
- `FollowupTask.NewSessionData` sets `utilisateurs` when the object is created. The source assigns it after the user loop, while nothing else reads the object.
- `get_name` and the `sirhrest` and `errors` fields are not modelled, because the task's logic does not use them.
- The MySQL `GROUP_CONCAT` form of the aggregated ids is not modelled. Only the PostgreSQL `{1,2,3}` form is.
- The other SQL wrappers of `database_interface`, the web services of `externallib.php`, `pages/send_archived.php`, `db/upgrade.php` and `db/uninstall.php` are outside the sync core.
- PHP's loose `==` between an integer user id and an id text is modelled as equality of the canonical decimal text. Ids are natural numbers.
- DatabaseInterface.BuildStatusCondition: the clause is stated as the alternatives joined by ` OR `. The number of separators is not stated as a count.
- `get_records_sql` keys the link rows by `e.id`; the model assumes the enrolment table lists each id once. The link row drops the `sessionid` and `sessionname` columns, which the task never reads.
- The `GROUP BY` of the link query is modelled with enrolment order as the row order. The order of the aggregated ids follows the `user_enrolments` table.
- The SQL joins through the course shortname are modelled as conditions on the tables held in memory. The SQL text of the completion query is not built as a string; only its status clause is.
- DatabaseInterface.DatabaseInterface.GetSessionsCompletedByUser: the status clause is built as the code builds it, but the query's status condition is taken to mean that the session's status is in the filter. The SQL text is not parsed, so a status containing a quote, which would change the real query, is not modelled.
