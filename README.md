# A Dafny model of a file-backed job queue, its token and role helpers, and two small helper files

This project models in Dafny the core of a small Python repository.

- **The job queue.** A producer adds jobs and a consumer claims them through a CSV queue file guarded by an advisory lock file. The lock is held by creating the lock path exclusively.
  - The record layer and the lock are in `queue_utils.py`.
  - `reserve_job`, `mark_done` and the consumer's `main` are in `consumer.py`.
  - `enqueue_jobs` and its `build_row` closure are in `producer.py`.
- **Authentication helpers.** `app/security.py` parses and formats comma-separated role strings. It also checks the three segments and the signature of a bearer token and verifies a password against a stored hash.
- **Authentication endpoints.** `app/endpoints/auth.py` turns those helpers into HTTP 401/403 decisions.
- **Small helpers.** `testy_jednostkowe_functions.py` and `test/testy_jednostkowe_functions.py` hold a palindrome test, two Fibonacci variants and a vowel count. The concrete cases of `test/tests.py` are proved as lemmas.

## Modules

| Dafny module (file) | models |
|---|---|
| `Wrappers` (`wrappers.dfy`) | `Option` and `Result` |
| `Strings` (`strings.dfy`) | The Python string built-ins the core relies on: `str.strip`, `str.split(sep)`, `sep.join`, `str(int)` and `int(str)` |
| `QueueUtils` (`queue_utils.dfy`) | The queue file as a sequence of records, `csv.DictReader`/`_normalize_job`/`read_jobs`, `write_jobs`, `ensure_queue_file`. The class `QueueStore` holds the queue file and the lock path. The class `FileLock` implements `acquire`/`release`, which are also `__enter__`/`__exit__` |
| `Consumer` (`consumer.dfy`) | `reserve_job` and `mark_done` as methods over a `QueueStore`, each proved against a specification function of its critical section. Also the argument checks and the loop of `main` |
| `Producer` (`producer.dfy`) | `template.format(id=…)`, the `or` fallback of the template, `build_row`, `enqueue_jobs` and the count check of `main` |
| `Security` (`security.dfy`) | `parse_roles`, `format_roles` (with `dict.fromkeys`), the padding of `_urlsafe_b64decode`, the format and signature checks of `decode_token`, `create_access_token`'s layout, `verify_password` |
| `Auth` (`auth.dfy`) | `_get_bearer_token`, `get_token_payload`, `get_current_user`, `require_admin`, `login` |
| `Functions` (`functions.dfy`) | `is_palindrome` and the 1-indexed `fibonacci` |
| `TestFunctions` (`test_functions.dfy`) | The 0-indexed `fibonacci` and `count_vowels` of the second copy, plus the parametrised test cases |

### How the imperative parts are modelled

- **Mutable state.** `QueueStore.queueFile` is `None` when the file does not exist. Otherwise it is the file's records, each a sequence of cells. `QueueStore.lockFile` says whether the lock path exists. `FileLock.hasFd` stands for `self._fd is not None`.
- **Waiting for the lock.** A `FileLock.Acquire` call receives the behaviour of the other lock holder as a trace `env`. Each `env[k]` says what happened during the k-th back-off sleep. Either the holder still held the lock (`StillHeld`), or it removed the lock path and left the queue file as `ReleasedWith(file)`. Once the lock is ours, the critical section runs on the file found then (`FileAfterWait`), not the file from before the wait. So a waiter behind another reservation sees that reservation's write, and `Consumer.SuccessiveReservePassesDiffer` covers it. The source's `acquire` has no timeout. So when the trace runs out with the path still present, the model reports "still waiting" (`Acquire` returns false; `ReserveJob`/`MarkDone` return `StillWaiting`) instead of returning.
- **The `with` block.** `with FileLock(LOCK_FILE):` is written out as `Acquire`, the body, then `Release` on every exit, including the one where reading the file raised.
- **Critical sections.** `ReserveJob` and `MarkDone` are methods with loops. Their `ensures` say that their result and the file they leave equal what the specification functions `ReservePass` and `MarkDonePass` give for the file they found. The properties the source promises are then proved as lemmas about those functions: the claimed job, the only record changed, the round trip through the file, and completing what was reserved.
- **The consumer loop.** `main`'s infinite loop runs one iteration per element of `rounds`. The end of `rounds` stands for the keyboard interrupt. Each round carries the two clock readings and, for each of its two locked calls, whether another process took the lock just before the call and the trace of the wait. The lock can be taken before the reservation (while the consumer polls) or during the work sleep, before `mark_done`. `Consumer.ConsumeOnce` states its result through `ReservePass` on the file found for the reservation, then `MarkDonePass` on the file found for `mark_done`. When the holder during the work was other consumers, described as a sequence of their passes (`OtherPass`, `AfterOthers`), `Consumer.ReservedJobSurvivesOthers` shows none of them hands out our job and `mark_done` still answers true. `Consumer.ConsumeAmongOthers` states this for the iteration itself.

### Where the model follows the code rather than the documentation

- `mark_done` marks the first job with the id as `done` whatever its status is; it does not require `in_progress`.
- Statuses stay plain strings. The reader accepts whatever status text the file holds, as the code does.
- The producer's fallback is `description_template or …`, so an empty template also becomes the default.
- `producer.py` imports `QUEUE_DB` and `create_jobs` from `queue_utils`, which does not define them. `create_jobs` is therefore a parameter of `EnqueueJobs`/`ProducerMain`.
- `main` prints "missing while finishing" when `mark_done` answers false. In the model, the job a reservation hands out is found again when nothing intervenes (`Consumer.ReservedJobCompletes`) and when other consumers' passes intervene (`Consumer.ReservedJobSurvivesOthers`). That branch is reached only when the holder during the work leaves a file without the record, which `ConsumeOnce` allows, since a release may carry any file.

## Model

| member | source | states |
|---|---|---|
| QueueUtils.LastIndex | queue_utils.py:72-73 | The header column a `DictReader` key reads from: `dict(zip(fieldnames, row))` keeps the last column with that name. None exactly when no column has it |
| QueueUtils.Cell | queue_utils.py:72-73 | A value comes from the last column with that name, at an index inside the record. No value when no column has the name, or when that last column lies past the record's end |
| QueueUtils.RepeatedColumnLastWins | queue_utils.py:72-73 | A column name repeated at the end of the header reads from that last column. It reads as nothing when the record stops before it, even though an earlier column has the name |
| QueueUtils.DictRow | queue_utils.py:72-73 | Definition: the five named cells of a record, or `MissingColumn` naming the first of id, status, created_at, updated_at, description that has no value. `ReadEncodedRecord` proves it reads back what `EncodeJob` wrote |
| QueueUtils.ParseRecords | queue_utils.py:72-73 | Definition: the jobs of the records in order. Blank records are skipped and the first unreadable record raises. Proved to invert `EncodeAll` by `ParseEncodedRecords` |
| QueueUtils.ParseFile | queue_utils.py:69-73 | Definition: `read_jobs` on an existing file, whose first record names the columns. Proved to invert `SerializeJobs` by `WriteReadRoundTrip` |
| QueueUtils.EncodeJob | queue_utils.py:81-82 | Definition: the record `writerow` writes, the id as its decimal string and then the other fields in header order. Read back by `ReadEncodedRecord` |
| QueueUtils.SerializeJobs | queue_utils.py:76-82 | Definition: the header and then one record per job. Layout in `SerializeLayout`, inverse in `WriteReadRoundTrip` |
| QueueUtils.ForeignFlags | queue_utils.py:72-82 | One flag per job the records yield, skipping blank records as the reader does. Each flag says whether that row holds a key `DictWriter` refuses |
| QueueUtils.FileForeignFlags | queue_utils.py:72-82 | One flag per job of a readable file |
| QueueUtils.FirstTrue | queue_utils.py:80-82 | The first flagged job. None exactly when no job is flagged |
| QueueUtils.WriteAsWrittenTruncates | queue_utils.py:76-82 | `write_jobs` as written raises exactly when some row is flagged. Without one the file reads back as all the jobs. With one it reads back as only the jobs before the first flagged row, which is fewer than all |
| QueueUtils.FixedHeaderForeignKey | queue_utils.py:72-82 | Under the fixed header, a row has a refused key exactly when its record has more cells than the header |
| QueueUtils.OneRecordFile | queue_utils.py:69-73 | A header and one readable record read as that one job, with that record's flag |
| QueueUtils.SingleRecordFile | queue_utils.py:69-82 | One encoded job followed by extra cells reads back as that job, flagged exactly when there are extra cells |
| QueueUtils.NormalizeJob | queue_utils.py:64-66 | Succeeds exactly when the id text is an integer literal. The id is then that integer and every other field is untouched. Otherwise the error names the offending id text |
| QueueUtils.EncodeAll | queue_utils.py:80-82 | One record per job, in list order, each the job's cells in header order with the id as its decimal string |
| QueueUtils.EncodeAllSnoc | queue_utils.py:80-82 | Writing one more job appends exactly one more record |
| QueueUtils.SerializeLayout | queue_utils.py:76-82 | The written file is the header followed by exactly one record per job, in order |
| QueueUtils.ReadEncodedRecord | queue_utils.py:64-82 | Under the fixed header, the record written for a job reads back as that same job, whatever cells follow the five; the id survives `str` then `int` |
| QueueUtils.ReadEncodedJob | queue_utils.py:64-82 | The record written for a job, on its own, reads back as that job |
| QueueUtils.ParseRecordsCons | queue_utils.py:72-73 | A readable first record puts its job in front of the jobs read from the records after it |
| QueueUtils.ParseEncodedRecords | queue_utils.py:69-82 | Reading the records written for a job list gives back the same list |
| QueueUtils.WriteReadRoundTrip | queue_utils.py:69-82 | `read_jobs` after `write_jobs(jobs)` returns `jobs` |
| QueueUtils.QueueStore.EnsureQueueFile | queue_utils.py:56-61 | An existing file is left as it is. A missing one becomes the header alone, which reads as no jobs |
| QueueUtils.QueueStore.ReadJobs | queue_utils.py:69-73 | Ensures the file first, then returns the parse of the ensured file |
| QueueUtils.QueueStore.WriteJobs | queue_utils.py:76-82 | The file becomes exactly the header plus one record per job |
| QueueUtils.FileLock.constructor | queue_utils.py:25-28 | A new lock holds no descriptor |
| QueueUtils.FirstRelease | queue_utils.py:30-36 | The first back-off sleep during which the holder released the lock. None exactly when it held the lock throughout |
| QueueUtils.FileLock.Acquire | queue_utils.py:30-36 | Returns (holding the lock: descriptor set, path present) exactly when the path was absent or the other holder removed it during some back-off sleep. Otherwise it is still waiting and the path is still there. The queue file is then the one the holder left at that first release, or unchanged when nothing was waited for |
| QueueUtils.FileLock.Release | queue_utils.py:38-46 | No descriptor and no lock path afterwards. With neither present before, nothing changes |
| Consumer.FirstPending | consumer.py:26-27 | The index the loop stops at: the first job whose status is `pending`, and none exactly when no job is pending |
| Consumer.FirstWithId | consumer.py:38-39 | The first job with the given id, and none exactly when no job has it |
| Consumer.Claim | consumer.py:28-29 | Definition: status `in_progress` and the new `updated_at`. `ReserveChangesOnlyClaimed` proves every other field is kept |
| Consumer.Complete | consumer.py:40-41 | Definition: status `done` and the new `updated_at`. `ReservedJobCompletes` proves the completed record is the reserved one |
| Consumer.ReservePass | consumer.py:24-32 | Definition of the critical section of `reserve_job` on a file. `ReservePassReadsBack` proves what it returns and leaves |
| Consumer.MarkDonePass | consumer.py:36-44 | Definition of the critical section of `mark_done` on a file. `MarkDonePassReadsBack` proves what it returns and leaves |
| Consumer.ClaimFirstPending | consumer.py:26-31 | The loop over the jobs read, holding the lock: it claims the first pending job and writes the jobs back, or with none pending writes nothing and returns nothing. The lock is free afterwards |
| Consumer.ReserveLocked | consumer.py:24-32 | Entered holding the lock, it returns with the lock free. Its answer and the file it leaves equal `ReservePass` of the file it found |
| Consumer.CompleteFirstWithId | consumer.py:38-43 | The loop over the jobs read, holding the lock: it answers true exactly when some job has the id, completes the first such job and writes the jobs back. Otherwise it writes nothing. The lock is free afterwards |
| Consumer.CommitAndRelease | consumer.py:30-31 | `write_jobs` of the updated jobs, then leaving the `with` block: the file holds exactly those jobs and the lock is free |
| Consumer.MarkDoneLocked | consumer.py:36-44 | Entered holding the lock, it returns with the lock free. Its answer and the file it leaves equal `MarkDonePass` of the file it found, or of the header alone when the file was missing |
| Consumer.ReserveJob | consumer.py:22-32 | It waits exactly when the lock is held throughout the trace, and then the file has still been ensured. Otherwise, in both directions: the lock is free again, and the returned value and the new file equal `ReservePass` of the file found when the lock was acquired |
| Consumer.MarkDone | consumer.py:35-44 | It waits exactly when the lock is held throughout the trace, leaving the file untouched. Otherwise the lock is free again, and the answer and the new file equal `MarkDonePass` of the file found when the lock was acquired |
| Consumer.ReserveChangesOnlyClaimed | consumer.py:26-31 | A reservation sets the first pending job to `in_progress` with the new `updated_at`. It keeps that job's id, `created_at` and description, and changes no other record |
| Consumer.SuccessiveReservationsDiffer | consumer.py:26-31 | With unique ids, the next reservation can no longer pick the job just claimed, and the ids stay unique |
| Consumer.MarkDoneAbsent | consumer.py:38-44 | On a readable file, an id no job has answers false and leaves the file exactly as it was |
| Consumer.MarkDonePassReadsBack | consumer.py:35-44 | On a readable file `mark_done` returns, true exactly when some job has the id. Then the new file reads back as the jobs with only the first such record completed. Otherwise the file is not rewritten |
| Consumer.ReserveAsWrittenDropsQueue | consumer.py:22-32 | As written: a file whose one pending job has a sixth cell makes the reservation raise and leaves only the header. The corrected pass claims the job and the file reads back as that claimed job |
| Consumer.AsWrittenAgreesWithoutForeignKeys | consumer.py:22-44 | When no row holds a refused key, the as-written reservation and completion passes equal the corrected ones |
| Consumer.ReservePassReadsBack | consumer.py:22-32 | On a readable file a reservation returns. The answer is `None` exactly when no job is pending, and then the file is not rewritten. Otherwise the new file reads back as the jobs with only the claimed record changed, and that record is returned |
| Consumer.SuccessiveReservePassesDiffer | consumer.py:22-32 | Two reservations in a row through the file never return the same id when stored ids are unique |
| Consumer.ReservedJobCompletes | consumer.py:22-44 | `mark_done` of a reserved job's id answers true. With unique ids, exactly that record becomes `done` and the rest of the file is untouched |
| Consumer.CompleteAfterClaim | consumer.py:35-44 | With unique ids, `mark_done` finds a claimed record first, and completing it gives the jobs with that record completed from before the claim |
| Consumer.ReservationClaims | consumer.py:26-31 | With unique ids, a reservation leaves a readable file with unique ids in which the job it handed out is present and no longer `pending` |
| Consumer.OtherPassKeepsClaim | consumer.py:22-44 | Another consumer's reservation or `mark_done` keeps a readable file with unique ids readable, keeps the ids unique, and keeps a present, non-pending id so. A reservation never hands out that id |
| Consumer.OtherReserveKeepsClaim | consumer.py:22-32 | The reservation case of `OtherPassKeepsClaim` |
| Consumer.OtherMarkDoneKeepsClaim | consumer.py:35-44 | The `mark_done` case of `OtherPassKeepsClaim` |
| Consumer.OthersKeepClaim | consumer.py:22-44 | The same for any sequence of other consumers' passes |
| Consumer.OthersNeverHandOut | consumer.py:22-44 | Once an id is claimed, no reservation in any sequence of other consumers' passes hands it out, and `mark_done` of it afterwards answers true |
| Consumer.ReservedJobSurvivesOthers | consumer.py:79-89 | With unique ids, whatever passes other consumers run between our reservation and our `mark_done`, none of their reservations hands out our job, and our `mark_done` still answers true |
| Consumer.CheckConsumerArgs | consumer.py:68-71 | Continue exactly when both durations are positive. Otherwise give the exit message of the first failing check |
| Consumer.FirstWithIdUnique | consumer.py:38-39 | With unique ids, looking up a job's id finds that very job |
| Consumer.UpdateKeepsIdsUnique | consumer.py:40-42 | Changing a record's status or timestamp keeps the ids unique |
| Consumer.ConsumeOnce | consumer.py:79-92 | One loop iteration, with the lock possibly taken by another process before the reservation or during the work. It blocks exactly when a wait's trace ends with the lock held. Otherwise its result is that of `ReservePass` on the file found for the reservation: failed, idle, or followed by `MarkDonePass` of the job's id on the file found for `mark_done`, whose answer and file are the iteration's. The lock is free unless it blocked. Uncontended, with a free lock and a readable file, it is idle exactly when nothing is pending, leaving the file unchanged. Otherwise it claimed the first pending job and marked it done, and with unique ids that job ends `done` |
| Consumer.ConsumeAmongOthers | consumer.py:79-92 | From a free lock and a readable file with unique ids, and the lock taken during the work by other consumers whose passes `others` made the file: the iteration never fails, blocks only waiting for `mark_done`'s lock, and marks done the job it worked |
| Consumer.IdleStep | consumer.py:80-82 | A loop iteration that found nothing keeps the run's invariant |
| Consumer.WorkedStep | consumer.py:83-92 | A loop iteration that reserved and completed the first pending job keeps the run's invariant: no job has been handed out twice, and every handed-out job is `done` in the store |
| Consumer.RunConsumer | consumer.py:66-94 | Bad arguments give the exit message and touch nothing. A consumer alone (no round has the lock taken by another process) on a readable file with unique ids runs every round, leaves the lock free, never hands out a job twice, finds every job it reserved again and leaves it `done` |
| Producer.Format | producer.py:27 | Definition of `template.format(id=…)`, replacing each `{id}` from left to right. Its properties are in `FormatWithoutPlaceholder`, `FormatAroundPlaceholder` and `FormatPrefixThenPlaceholder` |
| Producer.BuildRow | producer.py:21-28 | Definition of `build_row`. `RowBuilder` states what every built row holds |
| Producer.EnqueueJobs | producer.py:18-31 | Definition: `create_jobs` called with the count and the builder. `ProducerMain` states the result |
| Producer.FormatWithoutPlaceholder | producer.py:27 | A template without `{id}` is used unchanged |
| Producer.FormatAroundPlaceholder | producer.py:27 | Each `{id}` becomes the decimal id, whatever text surrounds it |
| Producer.FormatPrefixThenPlaceholder | producer.py:19-27 | A brace-free text followed by `{id}`, the shape of the default template, becomes that text followed by the decimal id |
| Producer.ChooseTemplate | producer.py:19 | A missing or empty template gives the default, any other template is used as given |
| Producer.RowBuilder | producer.py:21-28 | Every built row has the given status, `created_at == updated_at ==` the one timestamp, and the chosen template filled with the id as its description |
| Producer.ProducerMain | producer.py:59-64 | Refused with the exit message exactly when the count is not positive. Otherwise the ids `create_jobs` returns for that builder |
| Producer.DefaultTemplateExample | producer.py:19-27 | With no template, or an empty one, job 7 is described as "Telephone conversation #7" |
| Producer.CustomTemplateExample | producer.py:27 | The template "Job #{id}" describes job 1 as "Job #1" |
| Strings.Strip | app/security.py:81 | `str.strip`: a slice of the input with only whitespace outside it and no whitespace at either of its own ends. It is empty exactly when the input is all whitespace |
| Strings.Split | app/security.py:81 | `str.split(sep)`: never empty, no piece contains the separator, and joining the pieces with the separator gives back the input. `SplitJoin` proves the converse |
| Strings.Join | app/security.py:87 | Definition of `sep.join(parts)`. `SplitJoin` proves `Split` inverts it |
| Strings.SplitJoin | app/security.py:81 | Splitting the join of separator-free parts gives back the parts |
| Strings.NatToString | queue_utils.py:81 | The decimal digits of a natural number: at least one, and all digits. `NatToStringNoLeadingZero` proves there is no leading zero |
| Strings.NatToStringNoLeadingZero | queue_utils.py:81 | The first digit is '0' exactly for 0, so a string of more than one digit never starts with '0' |
| Strings.IntToString | queue_utils.py:81 | Definition of `str(n)`: a "-" for negatives, then the decimal digits. `IntRoundTrip` proves `ParseInt` reads it back |
| Strings.NegativeRoundTrip | queue_utils.py:65 | A minus sign followed by the digits of `m` is read back by `int` as `-m` |
| Strings.NaturalRoundTrip | queue_utils.py:65 | The digits of `m` are read back by `int` as `m` |
| Strings.ParseInt | queue_utils.py:65 | Definition of `int(s)` on an optional sign and ASCII digits, `None` otherwise. `IntRoundTrip` proves it inverts `IntToString` |
| Strings.IntRoundTrip | queue_utils.py:65-81 | `int(str(n)) == n` for every integer |
| Security.StripAll | app/security.py:81-82 | The comprehension keeps only non-empty stripped pieces, and never more pieces than it was given |
| Security.StripAllMember | app/security.py:81-82 | A non-empty role is kept exactly when some input piece strips to it |
| Security.StripAllAppend | app/security.py:81-82 | The input order is kept: stripping a concatenation is the concatenation of the strips |
| Security.StripAllEmpty | app/security.py:81-82 | Nothing is kept exactly when every piece is blank |
| Security.ParseRoles | app/security.py:77-82 | Every parsed role is non-empty and stripped. Roles parsed from a string contain no "," |
| Security.RoleInText | app/security.py:80-81 | A role is parsed from a string exactly when one of its comma-separated pieces strips to it |
| Security.Dedup | app/security.py:87 | `dict.fromkeys`: the same members, no duplicates, ordered by first occurrence |
| Security.FormatRoles | app/security.py:85-87 | The stored role string is never empty |
| Security.FormatRolesFallback | app/security.py:85-87 | Falls back to "ROLE_USER" exactly when every given role is blank. Otherwise it is the de-duplicated roles joined with "," |
| Security.SingleRoleParses | app/security.py:77-81 | A comma-free role without surrounding blanks, such as `"ROLE_USER"`, parses back as itself |
| Security.JoinedRolesParse | app/security.py:77-87 | The de-duplicated roles, joined with ",", parse back as themselves when no role contains "," |
| Security.FormatParseRoundTrip | app/security.py:77-87 | Parsing what `format_roles` stored gives the de-duplicated roles, or `["ROLE_USER"]` when none, provided no role contains "," |
| Security.Padding | app/security.py:29-31 | The shortest run of "=" that makes the length a multiple of 4 |
| Security.DecodeToken | app/security.py:58-67 | "Invalid token format" exactly when the token does not split into three segments. With three segments, a `TypeError` exactly when the expected or the given signature has a non-ASCII character. Otherwise "Invalid token signature" exactly when they differ. Success implies the signature matches the first two segments, and the payload segment is handed on padded |
| Security.AssembleToken | app/security.py:53-55 | Definition of the token layout of `create_access_token`. `TokenRoundTrip` proves `DecodeToken` accepts it |
| Security.TokenRoundTrip | app/security.py:43-67 | A token laid out by `create_access_token` with an ASCII signature passes both checks and yields its payload segment. The same token with any other signature is refused: as "Invalid token signature" when that signature is ASCII, and with `TypeError` when it is not |
| Security.VerifyPassword | app/security.py:21-22 | Definition: the hash of the attempt equals the stored hash. `VerifyPasswordAccepts` states what it accepts |
| Security.VerifyPasswordAccepts | app/security.py:17-22 | The stored hash of a password accepts it. With a collision-free hash it accepts nothing else |
| Auth.SplitOnce | app/endpoints/auth.py:39 | `split(" ", 1)`: one part exactly when there is no space. Otherwise the text before the first space and the rest, which together rebuild the input |
| Auth.SplitOnceAt | app/endpoints/auth.py:39 | With the first space at index i, the parts are the text before i and the text after i |
| Auth.GetBearerToken | app/endpoints/auth.py:32-39 | 401 "Missing Bearer token" exactly when the header is absent or does not start with "Bearer ". Otherwise the rest after "Bearer ", stripped |
| Auth.GetTokenPayload | app/endpoints/auth.py:42-50 | Refused exactly when decoding fails. A `TokenValidationError` gives 401 "Invalid or expired token". The uncaught `TypeError` gives the framework's 500 "Internal Server Error". Otherwise the decoded payload |
| Auth.NonAsciiSignatureFails | app/endpoints/auth.py:42-50 | A three-segment token whose signature has a non-ASCII character gets 500, not 401 |
| Auth.GetCurrentUser | app/endpoints/auth.py:53-68 | A missing or empty `sub` gives 401 "Invalid authentication payload" and an unknown user gives 401 "User no longer exists". A known user is returned, and success returns only the looked-up user |
| Auth.RequireAdmin | app/endpoints/auth.py:71-78 | Admits the user unchanged exactly when "ROLE_ADMIN" is among the parsed stored roles. Otherwise 403 "Insufficient permissions" |
| Auth.RequireAdminPieces | app/endpoints/auth.py:71-73 | A user is admitted exactly when stored roles exist and one of their comma-separated pieces strips to "ROLE_ADMIN" |
| Auth.AdminAfterFormat | app/endpoints/auth.py:71-73 | A user stored with `format_roles(roles)` is admitted exactly when one given role strips to "ROLE_ADMIN" |
| Auth.RequireAdminRefusesFormatted | app/endpoints/auth.py:71-78 | A user stored with `format_roles(roles)`, where no role strips to "ROLE_ADMIN" and none holds ",", is refused with 403 "Insufficient permissions" |
| Auth.RequireAdminRefusesUser | tests/test_user_endpoints.py:22-38 | A user created with `["ROLE_USER"]` is refused with 403 "Insufficient permissions" |
| Auth.RequireAdminAdmitsAdmin | tests/conftest.py:59-67 | The admin created with `["ROLE_ADMIN", "ROLE_USER"]` is admitted |
| Auth.LoginRoles | app/endpoints/auth.py:27 | The token's roles are the parsed stored roles, or `["ROLE_USER"]` when they parse to nothing, so they are never empty |
| Auth.Login | app/endpoints/auth.py:18-29 | 401 "Invalid username or password" exactly when the user is unknown or the password does not verify. Otherwise the token issued for the user's name and `LoginRoles` |
| Functions.LowerFacts | testy_jednostkowe_functions.py:5 | Lowering keeps letters and digits, maps A-Z to a-z, and fixes lower case and digits |
| Functions.Cleaned | testy_jednostkowe_functions.py:5 | The cleaned string is never longer than the input |
| Functions.CleanedIsAlnum | testy_jednostkowe_functions.py:5 | Only letters and digits survive cleaning |
| Functions.CleanedAppend | testy_jednostkowe_functions.py:5 | Cleaning works character by character: cleaning a concatenation concatenates the cleanings |
| Functions.Reverse | testy_jednostkowe_functions.py:6 | `[::-1]`: same length, position i holds the character at the mirrored position |
| Functions.ReverseFixedIff | testy_jednostkowe_functions.py:6 | A string equals its reverse exactly when it reads the same from both ends |
| Functions.IsPalindrome | testy_jednostkowe_functions.py:3-6 | Definition: the cleaned string equals its reverse. `PalindromeIndexwise` states it index by index |
| Functions.Fib | testy_jednostkowe_functions.py:8-15 | Definition of the Fibonacci numbers that `Fibonacci`'s loop is proved against. `FibGrows` states how they grow |
| Functions.PalindromeIndexwise | testy_jednostkowe_functions.py:3-6 | `is_palindrome` holds exactly when the lowercased alphanumeric characters read the same from both ends |
| Functions.CleanedReverse | testy_jednostkowe_functions.py:5-6 | Cleaning commutes with reversal |
| Functions.PalindromeReverse | testy_jednostkowe_functions.py:3-6 | A string is a palindrome exactly when its reverse is |
| Functions.PalindromeIgnoresPunctuation | testy_jednostkowe_functions.py:5 | Inserting a character that is neither a letter nor a digit never changes the answer |
| Functions.Fibonacci | testy_jednostkowe_functions.py:8-15 | Raises "n must be a positive integer" exactly when n ≤ 0. Otherwise the n-th Fibonacci number, with F(1) = F(2) = 1 |
| Functions.FibGrows | testy_jednostkowe_functions.py:8-15 | For n ≥ 1 the result is positive and never smaller than for a smaller n |
| TestFunctions.Fibonacci | test/testy_jednostkowe_functions.py:8-15 | Raises "n must be a non-negative integer" exactly when n < 0. Otherwise the n-th Fibonacci number, with F(0) = 0 |
| TestFunctions.IsVowelIff | test/testy_jednostkowe_functions.py:19-20 | The vowel test is membership in 'aeiouyąęóAEIOUYĄĘÓ' |
| TestFunctions.CountVowels | test/testy_jednostkowe_functions.py:17-20 | The count is at most the length |
| TestFunctions.CountVowelsExtremes | test/testy_jednostkowe_functions.py:17-20 | The count is 0 exactly when no character is a vowel, and equals the length exactly when every character is |
| TestFunctions.CountVowelsAppend | test/testy_jednostkowe_functions.py:20 | The count is additive over concatenation |
| TestFunctions.PalindromeKajak | test/tests.py:14-25 | "kajak" is a palindrome |
| TestFunctions.CleanedKobyla | test/tests.py:14-25 | "Kobyła ma mały bok" cleans to "kobyłamamałybok" |
| TestFunctions.PalindromeKobyla | test/tests.py:14-25 | "Kobyła ma mały bok" is a palindrome |
| TestFunctions.PalindromePython | test/tests.py:14-25 | "python" is not a palindrome |
| TestFunctions.PalindromeTrivial | test/tests.py:14-25 | "" and "A" are palindromes |
| TestFunctions.FibonacciExamples | test/tests.py:28-43 | F(0) = 0, F(1) = 1, F(5) = 5, F(10) = 55 (the case -1 raising is the `n < 0` clause of `TestFunctions.Fibonacci`) |
| TestFunctions.VowelsPython | test/tests.py:45-56 | "Python" has 2 vowels |
| TestFunctions.VowelsUpper | test/tests.py:45-56 | "AEIOUY" has 6 vowels |
| TestFunctions.VowelsNone | test/tests.py:45-56 | "bcd" and "" have none |
| TestFunctions.VowelsPolish | test/tests.py:45-56 | "Próba żółwia" has 5 vowels |

`is_palindrome` appears twice in the repository, identically, at testy_jednostkowe_functions.py:3-6 and test/testy_jednostkowe_functions.py:3-6. It is defined once (`Functions.IsPalindrome`) and shared.

## Findings

| source | as written | input that shows it | evidently intended | confidence | as-written member | corrected member |
|---|---|---|---|---|---|---|
| queue_utils.py:76-82 with consumer.py:22-44 | `write_jobs` opens the file with "w" and writes the header. Then `writerow` raises `ValueError` (`extrasaction='raise'`) on the first row with a key outside the five columns. That happens when a record has more cells than the header (the `None` key) or the header names another column. The exception leaves `reserve_job`/`mark_done` and the file keeps only the header and the jobs before that row | a queue file of the header and `1,pending,t,t,call,x` (one pending job with a sixth cell) | rewrite the five columns of every job and keep the queue. Equally plausible, since reservations and completions are meant to be all-or-nothing: raise before truncating, leaving the file untouched. The model takes the first reading | not executed | Consumer.ReserveAsWrittenDropsQueue (with QueueUtils.WriteAsWrittenTruncates, Consumer.ReservePassAsWritten, Consumer.MarkDonePassAsWritten) | Consumer.ReservePassReadsBack, Consumer.MarkDonePassReadsBack, QueueUtils.WriteReadRoundTrip |

The rest of the model uses the corrected passes `ReservePass` and `MarkDonePass`, which write the five columns of every job. `Consumer.AsWrittenAgreesWithoutForeignKeys` shows both readings agree on every file without such a row.

## Left out

- CSV quoting, escaping and line breaks: the queue file is modelled as its records already split into cells.
- Real file I/O and the filesystem: the two paths are fields of `QueueStore`.
- Other processes: they appear only by taking the lock (`Round.takenBeforeReserve`, `Round.takenDuringWork`) and through the lock trace, where each release carries the queue file the holder left. A process that edits the queue file without holding the lock is not modelled. A consumer running alone is the case where no round has the lock taken (`Consumer.Uncontended`); `RunConsumer`'s whole-run guarantee is stated for that case only.
- Timeouts: there are none in the source. A lock that is never released shows up as `StillWaiting` once the trace ends.
- The `time.sleep` calls and `print` output are left out. `utc_now()` readings are parameters (`now`, `claimedAt`, `doneAt`, the builder's timestamp).
- QueueUtils.DictRow: a column with no value is an error (`MissingColumn`) at read time. `csv.DictReader` instead leaves the key out when the header lacks the column, and gives `None` when the record stops before it. For the id both raise (`KeyError` or `int(None)`). For another column the source raises only later: `reserve_job` raises `KeyError` on a missing status. Otherwise `write_jobs` writes "" for the field. The model is stricter there.
- QueueUtils.ParseRecords: reading ignores cells beyond the header (`DictReader`'s `None` key). Their effect on writing is the finding below.
- Strings.ParseInt: models `int()` on an optional sign followed by ASCII digits. Surrounding whitespace, `_` separators and non-ASCII digits, which Python also accepts, are not modelled.
- Strings.IsSpace: covers the characters Python's `str.isspace` reports in the Latin-1 range and the Unicode `Zs`/line/paragraph separators listed in the definition.
- Functions.IsAlnum and Functions.Lower cover ASCII letters and digits and the Polish letters ąćęłńóśźż/ĄĆĘŁŃÓŚŹŻ, not all of Unicode.
- Producer.Format: replaces every `{id}`. The rest of `str.format` is not modelled: `{{`/`}}` escapes, other fields (which raise `KeyError`) and format specs.
- `create_jobs` and `QUEUE_DB` (the SQLite side of the producer) are not part of this model. `create_jobs` is a function parameter.
- SHA-256 (`hash_password`), HMAC (`_sign`), base64 and JSON are left out. `hash`, `sign`, `payloadOf` and `issue` stand for them as function parameters.
- The expiry check of `decode_token` ("Token expired") is left out, because it needs the clock and a float conversion.
- Errors from malformed base64 or JSON are left out; they are not `TokenValidationError` and escape `get_token_payload`.
- Auth.GetCurrentUser: models `sub` as an optional string. Non-string JSON values of `sub` (`0`, `false`, a list) are not modelled.
- Consumer.CheckConsumerArgs: models the durations as `real`. NaN and infinities, which `float` parsing admits, are not modelled.
- `parse_args`, the FastAPI routing, the database session, `app/api.py`, `api.py`, `app/db.py`, `app/models.py`, `app/schemas.py` and `app/endpoints/user.py` are not part of this model.
- `calculate_discount`, `flatten_list`, `word_frequency` and `is_prime`, which `test/tests.py` imports, are defined nowhere in the repository and are not modelled.
