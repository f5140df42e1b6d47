# ProIdentity Mail: a verified model

This project models the parts of ProIdentity Mail that decide something on their own, and proves what
they are relied on for. It follows the Go code branch by branch; where the code changes state step by
step the model does too, as classes and loops proved against a specification, and the specification is
then shown to have the properties. `dafny verify dfyconfig.toml` checks all of it.

| files | what they model |
|---|---|
| `Text`, `Options`, `Clock` | the string operations the other files need |
| `LineDiff`, `ConfigDrift` | the configuration drift report: redaction, line diff, comparison |
| `Calendar`, `Retention` | which backups retention keeps, and pruning as it goes on for years |
| `Penalties`, `LimiterHistory`, `LoginLimiters`, `AttemptBound`, `LoginGate`, `AuthSpray` | the two login limiters, the spray alert and the locking of accounts, the gate in front of a login, how many attempts it lets through, and what the alert comes to for the keys of logins |
| `Dns`, `Cloudflare`, `CloudflareApply`, `CloudflareConvergence`, `DkimText`, `DomainDns` | the DNS records of a domain, and the reconciler that brings a Cloudflare zone to them |
| `EncryptedArchive`, `FileTree`, `BackupArchive` | backups: the encrypted container, trees of files and directories, creating and verifying an archive |
| `Unpacking`, `LiveRestore`, `BackupRestore`, `Installation` | unpacking an archive, restoring it over a live system, what that puts back, and the tables of an installation |
| `TlsJobs` | the queue of certificate jobs, as the interleaved statements of any number of workers |
| `Sessions` | the session manager, as the interleaved critical sections of any number of calls |

## Main results

- The drift report masks exactly the lines that name a secret and are no comments, word for word as listed.
  Its diff is minimal and rebuilds both redacted files; files that differ only inside masked secrets have no
  change to show.
- Pruning after every backup keeps what one prune of all backups ever made would keep, despite caps that
  switch off in the middle of the loop, week numbers, and months that overflow. A tier keeps the newest
  backup of a day, of a week from Monday to Sunday, or of a month.
- The limiter that deletes entries and the one that keeps stale rows answer alike on every run. The gate of
  the handlers checks first and records later, so logins that overlap get past it together; with at most c
  logins of a key in flight, a count n whose lockout covers the window is exceeded by c - 1 at most, and
  that is reached. By default that makes 11 failures in a window for logins one after the other, 10 + c for
  up to seven at once, and 20 + c for any c.
- A client whose logins fail on five addresses within a minute is reported, and one that fails on fewer is
  not, however many others fail on the same address.
- The reconciler converges from every zone, exactly for the sets of wanted records that can stand beside
  each other, and the records generated for a domain are such a set exactly unless the mail host is one
  of the names the domain uses for something else. Afterwards the zone has the MX of the mail host, its
  addresses and the SPF text, as the configuration has them.
- Encrypted archives open to what was encrypted however the input was read. Exactly the sequences of whole
  frames that open are accepted; nothing binds a frame to its place, so frames may be dropped, repeated and
  swapped unnoticed.
- A backup unpacks file by file to where it was archived exactly when trimming leaves the names of its files
  alone and no directory comes to lie at or below a file under its trimmed name. A restore of any backup
  goes through exactly when all names are safe, the archive unpacks, no mapping starts below a staged file
  or leads to one at the root, and nothing would become both a file and a directory. If trimming leaves all
  names alone, only unsafe names and a clash with the live tree can stop it, and it puts back exactly the
  files and directories of the mapped sources, however the targets overlap.
- A certificate job is claimed once, written only by its claimant, and only moves on; a finished one changes
  only after the report of its success was lost, and then into a failure. No worker claims more jobs than its
  limit.
- A removed session never returns, and a recent step-up was checked, on that session, and is in time. The
  sessions of a subject that outlive its invalidation are exactly those put into the table after it.

## Where the code does not do what it seems to

- `redactConfig` trims blanks before the mask, but the kept text ends in `=`, so nothing is ever trimmed
  (`ConfigDrift.RedactedForm`).
- A backup can be created that does not verify: below a directory whose name ends in two dots, the archive
  name of anything, even of an empty directory, contains `../` (`BackupArchive.CreatedCanBeRefused`; the
  exact condition is in `BackupArchive.CreatedIsAccepted`).
- A file whose archive name begins or ends in blanks is unpacked under another name
  (`Unpacking.StagedInPlaceIff`), and a backup that verifies may not unpack at all for that reason
  (`Unpacking.VerifiedBackupNeedNotUnpack`), or because a directory of such a name gets in the way of a file
  (`Unpacking.DirectoryCanBlockAFile`; the exact condition is in `Unpacking.StagingIs`).
- The gate in front of a login does not bound the failures of a key on its own: twelve logins that all ask
  before any of them fails reach twelve failures (`LoginGate.OverlapBeatsTheGate`; what bounds them is in
  `LoginGate.LoginsAreBounded`).
- An encrypted backup with frames missing, repeated or out of order is decrypted all the same
  (`EncryptedArchive.FramesCanBeMoved`).
- A session whose Create had drawn its token when its subject was invalidated is valid afterwards
  (`Sessions.DrawnOutlivesInvalidation`; the exact condition is in `Sessions.OutlivesInvalidation`).
- The two limiters differ for blank keys (`LoginLimiters.BlankKeysDiffer`).
- A mail host set to `webmail.`, `autoconfig.` and the like of the domain itself makes a set of records
  that one apply to an empty zone does not settle (`DomainDns.WellFormedIffNoClash`,
  `DomainDns.SetupHostDoesNotSettle`, `DomainDns.ClashingConfiguration`).
- A job whose last statement succeeds without its reply arriving is first marked succeeded and then failed
  (`TlsJobs.LostSuccessBecomesFailure`).
- A job whose worker stops in the middle of it, or is not told that its claim went through, stays running
  for good: nothing takes it up again (`TlsJobs.StoppedJobIsStuck`).
- Records are compared without regard to case, keys included: a DKIM record with its key in the wrong case
  is planned "ok" (`Cloudflare.WrongCaseIsOk`).

## Model

Paths are those of the repository. A range names the main place; a statement that spans several functions
cites the one it starts from.

| member | source | states |
|---|---|---|
| `LineDiff.LineDiff` | internal/configdrift/drift.go:198-236 | the printed lines read back as one edit script that turns the live lines into the desired ones, keeps as many lines as any common subsequence has, changes as few as any script does, and never puts a `-` line right after a `+` line |
| `LineDiff.FillTable` | internal/configdrift/drift.go:199-213 | every cell of the table, border included, is the length of the longest common subsequence of the two suffixes |
| `LineDiff.CommonAtMostLcs` | internal/configdrift/drift.go:199-213 | no common subsequence of two suffixes is longer than their table cell |
| `LineDiff.Minimal` | internal/configdrift/drift.go:198-236 | a script that keeps as many lines as the corner cell says keeps the most and changes the fewest of all scripts from a to b |
| `LineDiff.Conservation` | internal/configdrift/drift.go:214-235 | in any script, changed lines plus twice the kept lines are the lines of both sides: nothing is lost or counted twice |
| `LineDiff.KeptIsCommon` | internal/configdrift/drift.go:214-235 | the kept lines of any script are a common subsequence of what it reads and what it produces |
| `LineDiff.NoChangesIffEqual` | internal/configdrift/drift.go:198-236 | a minimal script has no `+` or `-` exactly when both sides are equal |
| `LineDiff.ReadRendered` | internal/configdrift/drift.go:214-235 | the printed prefixes determine the script: reading the lines gives it back |
| `ConfigDrift.UnifiedDiff` | internal/configdrift/drift.go:164-187 | up to the size limit the output is the header and a diff that rebuilds both redacted files minimally; beyond it, the header and the omission notice |
| `ConfigDrift.RedactConfig` | internal/configdrift/drift.go:238-250 | the loop over the slice gives the text, line for line: a line whose first non-blank character is not `#` and that contains one of the nine words in any case becomes its text through the first `=` and the mask, or the mark alone without a `=`; every other line is unchanged |
| `ConfigDrift.SecretLikeIs` | internal/configdrift/drift.go:252-265 | a line is secret exactly when it is neither blank nor a comment and contains one of the words, white space and case aside |
| `ConfigDrift.RedactLineIs` | internal/configdrift/drift.go:238-265 | what is shown of one line, in terms of its letters |
| `ConfigDrift.RedactTextShown` | internal/configdrift/drift.go:238-265 | and of every line of a text, none being added or lost |
| `ConfigDrift.RedactedForm` | internal/configdrift/drift.go:238-250 | a masked line is the text through its first `=` and the mask; trimming blanks there never removes anything |
| `ConfigDrift.RedactLineIdempotent` | internal/configdrift/drift.go:238-265 | masking a masked line changes nothing |
| `ConfigDrift.LinesOfText` | internal/configdrift/drift.go:189-196 | the lines of a text are what its line ends follow, of either kind; an empty text has none |
| `ConfigDrift.SecretIsHidden` | internal/configdrift/drift.go:238-265 | two secret-like lines with the same text through the first `=` are masked alike |
| `ConfigDrift.SecretsAreHidden` | internal/configdrift/drift.go:238-265 | files whose lines pairwise are equal or differ only inside secrets have the same redacted text |
| `ConfigDrift.SecretsAloneNeverShow` | internal/configdrift/drift.go:164-250 | a minimal diff between such files has neither a `+` nor a `-` line |
| `ConfigDrift.CompareOne` | internal/configdrift/drift.go:124-157 | match, missing and drift are told from the two readings exactly; the diff is shown for drift and missing only, and rebuilds both redacted files |
| `ConfigDrift.Compare` | internal/configdrift/drift.go:84-122 | one item per mapping, counters that add up to the total, "ok" exactly when every mapping is in sync and no context was done, "error" exactly when some item is an error |
| `ConfigDrift.TallyAdds` | internal/configdrift/drift.go:103-121 | the four counters partition the items |
| `Calendar.YearLength` | internal/backup/prune.go:106-113 | consecutive year starts are 365 or 366 days apart, by the leap rule |
| `Calendar.MonthLength` | internal/backup/prune.go:155-158 | consecutive month starts are as many days apart as the month has |
| `Calendar.MonthTable` | internal/backup/prune.go:155-158 | the months have the lengths of the Gregorian calendar, with its leap years |
| `Calendar.MonthOfIs` | internal/backup/prune.go:155-158 | a day belongs to the one month whose start and end enclose it |
| `Calendar.AddMonthsOverflow` | internal/backup/prune.go:113 | adding months lands in the target month, or in the next one exactly when the day of the month does not exist there |
| `Calendar.MonthsBackMonotone` | internal/backup/prune.go:113 | the month reached by subtracting months is monotone in the instant, despite the overflow of days |
| `Calendar.ISOWeekNamesWeek` | internal/backup/prune.go:126 | two days have the same ISO year and week exactly when the number of the day divided by seven is the same, day 0 being a Monday: weeks run from Monday to Sunday (section 3.2.2 of ISO 8601:2004) |
| `Calendar.Epoch` | internal/backup/prune.go:126 | Unix time begins on day 719162, a Thursday in week 1 of 1970, and that week three days before it |
| `Calendar.FourthOfJanuary` | internal/backup/prune.go:126 | the fourth of January of every year is in its week 1 |
| `Calendar.NextWeek` | internal/backup/prune.go:126 | from one week to the next the number goes up by one, or after 52 or 53 the year does and it begins again |
| `Calendar.ISOWeekRange` | internal/backup/prune.go:126 | ISO week numbers are 1 to 53 |
| `Retention.SelectBackupsToKeep` | internal/backup/prune.go:106-148 | the single loop over three tiers with caps switching off selects exactly the backups that, in some tier, are newest of their bucket, within the cutoff and among the first Cap buckets |
| `Retention.BucketsAreIndexed` | internal/backup/prune.go:124-146 | day, week and month keys are equal exactly when the day, the day divided by seven, and the month are; the indices follow time |
| `Retention.DailySelects` | internal/backup/prune.go:106-148 | the daily tier selects exactly the newest backup of a day, of the last Daily days or later, with fewer than Daily later days that have one |
| `Retention.WeeklySelects` | internal/backup/prune.go:106-148 | the weekly tier selects exactly the newest backup of a week from Monday to Sunday, of the last 7 * Weekly days or later, with fewer than Weekly later weeks that have one |
| `Retention.MonthlySelects` | internal/backup/prune.go:106-148 | the monthly tier selects exactly the newest backup of a month, from Monthly - 1 months back or a month later if that one is too short, with fewer than Monthly later months that have one |
| `Retention.CutoffMonotone` | internal/backup/prune.go:111-113 | every cutoff moves forward with the clock and back with a larger policy |
| `Retention.SameBuckets` | internal/backup/prune.go:106-148 | removing backups that were not kept changes no tier's view of its buckets until the cap is met |
| `Retention.Sandwich` | internal/backup/prune.go:49-65 | any set between what is kept and what there was is pruned to the same set, so pruning twice deletes nothing new |
| `Retention.PolicyMonotone` | internal/backup/prune.go:106-148 | a pointwise larger policy never keeps less |
| `Retention.KeepsAtMost` | internal/backup/prune.go:106-148 | at most as many backups are kept as the caps of the enabled tiers add up to, for any policy, each the newest of its bucket within the window of some tier |
| `Retention.DailyWindow` | internal/backup/prune.go:111-124 | with no backup dated after now the daily window has exactly Daily days, so its cap never drops the newest of a day |
| `Retention.MonthlyWindow` | internal/backup/prune.go:113-145 | the monthly window meets at most Monthly months, so its cap never drops the newest of a month |
| `Retention.WeeklyWindow` | internal/backup/prune.go:112-135 | the weekly window meets at most Weekly + 1 ISO weeks; the newest of a week is dropped exactly when it lies in the first of them and Weekly later weeks are non-empty |
| `Retention.NothingNeededIsLost` | internal/backup/prune.go:38-68 | in every run of adding newer backups and pruning, what one prune of all backups ever made would keep is still there |
| `Retention.IncrementalIsOneShot` | internal/backup/prune.go:38-68 | after every prune of such a run the survivors are exactly what one prune of every backup ever made keeps |
| `Retention.BackupDir.List` | internal/backup/prune.go:70-87 | the files with a backup name, each once, from newest to oldest |
| `Retention.BackupDir.Prune` | internal/backup/prune.go:38-68 | with Apply exactly the kept backups remain and nothing else is touched, without it nothing changes; the counters are the sizes of those sets |
| `Penalties.NormalizePenaltyList` | internal/session/manager.go:170-182 | the effective penalties, all of them, sorted by threshold |
| `Penalties.LockoutForFailureCount` | internal/session/manager.go:139-150 | the lockout of the largest effective threshold not above the count, none if there is none |
| `Penalties.LockoutIs` | internal/session/manager.go:139-150 | the function form meets the same description |
| `Penalties.LockoutUnique` | internal/session/manager.go:139-182 | with distinct thresholds that lockout depends on the set of penalties only, not on their order |
| `Penalties.LockoutMonotoneIff` | internal/session/manager.go:139-150 | with distinct thresholds more failures never shorten the lockout exactly when lockouts increase with thresholds |
| `Penalties.DefaultLockouts` | internal/session/manager.go:62-69 | the default schedule as a table of counts: none below 4, then 30 seconds, 5 minutes, 1 hour and 24 hours |
| `Penalties.AdminLockouts` | internal/session/manager.go:71-78 | the administrators' schedule as a table of counts: none below 2, then 30 seconds, 5 minutes, 1 hour and 24 hours |
| `Penalties.DefaultDistinct` | internal/session/manager.go:62-69 | the default thresholds are distinct |
| `Penalties.AdminDistinct` | internal/session/manager.go:71-78 | so are the administrators' |
| `LimiterHistory.TrackInPast` | internal/session/manager.go:116-131 | what is counted for a key began and ended in the past |
| `LimiterHistory.TrackedIffLastFailed` | internal/session/manager.go:116-137 | a key is counted exactly when the last thing that happened to it was a failure, at the time of that failure |
| `AttemptBound.BurstIsShort` | internal/session/manager.go:93-150 | for any schedule: once a key has reached a count whose lockouts last, every further failure of the same window either came after waiting for a lockout, or its login had asked before that count was reached, and there are fewer of the latter than logins may overlap |
| `AttemptBound.NeverMoreThan` | internal/session/manager.go:93-150 | for any schedule and window, if every failure was asked for while the key was not locked and at most c logins overlap, the count of a key stays below n + c at every moment, for every count n whose lockout covers the window, as long as later lockouts are no shorter and earlier ones keep the first failure and the n-th apart |
| `AttemptBound.BoundIsReached` | internal/session/manager.go:93-150 | and no better bound holds: from any history in which the key is one failure short of n and not locked, c logins that all ask before any of them fails bring it to n + c - 1 |
| `AttemptBound.Windows` | internal/session/manager.go:116-131 | if no moment counts more than n, counting windows without a success begin more than a window apart and hold at most n failures each |
| `AttemptBound.AtMostPerWindow` | internal/session/manager.go:116-131 | then at most n * (k + 1) failures fit in any span of k windows without a success |
| `AttemptBound.DefaultCovers` | internal/session/manager.go:62-69 | in the default schedule the eleventh failure covers an hour for up to seven overlapping logins, the twenty-first for any number |
| `AttemptBound.AdminCovers` | internal/session/manager.go:71-78 | in the schedule of administrators the sixth does for up to four, the eleventh for any number |
| `AttemptBound.DefaultBound` | internal/session/manager.go:62-150 | with the default schedule and at most c overlapping logins the count never exceeds 10 + c, or 20 + c for more than seven, and n >= 1 hours without a success see at most n + 1 times as many failures |
| `AttemptBound.AdminBound` | internal/session/manager.go:71-150 | the same for administrators with 5 + c, or 10 + c for more than four |
| `LoginGate.StepKeeps` | internal/groupware/handlers.go:110-127 | every call of the limiter by every login in flight keeps the invariant: each question was answered no, and of the logins that had asked when the history was x long no more than c were or will be told, for every x |
| `LoginGate.GateHolds` | internal/groupware/handlers.go:110-127 | in every interleaving of logins, with any keys, every recorded failure of a key was asked for while that key was not locked, no more of them overlap than were in flight at once, and the clock never went back |
| `LoginGate.LoginsAreBounded` | internal/groupware/handlers.go:110-127 | so with at most c logins of a key in flight the default schedule bounds its count by 10 + c, or by 20 + c for more than seven, and the failures of n >= 1 hours without a success by n + 1 times that |
| `LoginGate.OverlapBeatsTheGate` | internal/groupware/handlers.go:110-127 | without a limit on the logins in flight the gate bounds nothing: c > 11 logins that all ask before any is told fail c times in one instant, which the gate of logins one after the other would exclude |
| `LoginGate.LoginKeysDiffer` | internal/groupware/handlers.go:131-139 | the keys of a login differ from each other |
| `LoginGate.AnyLocked` | internal/session/manager.go:184-194 | true exactly if some key is locked when it is asked for; the history is unchanged |
| `LoginGate.FailAll` | internal/session/manager.go:196-203 | the history is extended by a failure of every key, in order |
| `LoginGate.SuccessAll` | internal/session/manager.go:205-212 | the history is extended by a success of every key, in order |
| `LoginGate.Login` | internal/groupware/handlers.go:110-127 | a login is refused exactly if some key is locked, leaving no record; otherwise its outcome is recorded for all keys |
| `LoginGate.AloneAgrees` | internal/groupware/handlers.go:110-127 | a login of the interleaved model that nothing interrupts leaves the history and gives the answer of the method, whatever the clock readings |
| `LoginLimiters.LoginLimiter.constructor` | internal/session/manager.go:80-91 | an empty limiter, with 3600 seconds for a missing window |
| `LoginLimiters.LoginLimiter.Locked` | internal/session/manager.go:93-114 | the answer is the one the history of failures and successes alone calls for, although entries are cleared and deleted on the way; the history is unchanged |
| `LoginLimiters.LoginLimiter.Fail` | internal/session/manager.go:116-131 | the map afterwards stands for the history with this failure |
| `LoginLimiters.LoginLimiter.Success` | internal/session/manager.go:133-137 | the map afterwards stands for the history with this success |
| `LoginLimiters.MemAnswers` | internal/session/manager.go:93-114 | the map answers as the history does, also after clearing a lock that ran out or deleting a stale entry |
| `LoginLimiters.MemRecords` | internal/session/manager.go:116-137 | counting in the map is counting in the history, also for a key whose stale entry was deleted before |
| `LoginLimiters.SQLLoginLimiter.constructor` | internal/session/sql_limiter.go:28-44 | an empty table and no alert, with 3600 seconds for a missing window and ten failures for a missing account threshold |
| `LoginLimiters.SQLLoginLimiter.Locked` | internal/session/sql_limiter.go:46-75 | the same answer from rows that are never deleted when stale; a blank key is never locked |
| `LoginLimiters.SQLLoginLimiter.Fail` | internal/session/sql_limiter.go:77-156 | the table afterwards stands for the history with this failure, the alerts stay spaced and complete, and the account of an account key is locked exactly when the count has reached the threshold |
| `LoginLimiters.SQLLoginLimiter.Success` | internal/session/sql_limiter.go:245-254 | the table afterwards stands for the history with this success; alerts are kept |
| `LoginLimiters.SQLLoginLimiter.RecordAuthSprayAlert` | internal/session/sql_limiter.go:164-243 | one alert is added exactly when the key is a pair key of a known client, at least five of its accounts are under attack in the history, and there was none within the cooldown |
| `LoginLimiters.SQLLoginLimiter.HasRecentAlert` | internal/session/sql_limiter.go:202-214 | the cooldown query finds exactly the alerts for the client that are not older than five minutes |
| `LoginLimiters.SqlAnswers` | internal/session/sql_limiter.go:46-75 | the row of a non-blank key answers as the history does |
| `LoginLimiters.SqlRecords` | internal/session/sql_limiter.go:77-131 | updating the row is counting in the history; a blank key has no row |
| `LoginLimiters.PairKeyMatches` | internal/session/sql_limiter.go:168-175 | every key that parses as a pair key passes the LIKE filter of the scan |
| `LoginLimiters.RowsShowAttack` | internal/session/sql_limiter.go:168-194 | the accounts found in the table are exactly those whose last event in the history is a failure within the last minute |
| `LoginLimiters.SprayIsReported` | internal/session/sql_limiter.go:164-243 | after a failure that brings a client to five accounts there is an alert no older than the cooldown, and any two alerts for a client are more than the cooldown apart |
| `LoginLimiters.LockedLeavesNoTrace` | internal/session/manager.go:93-114 | two runs of calls that differ only in additional Locked calls get the same answers from both limiters to all Locked calls they share |
| `LoginLimiters.RunBoth` | internal/session/sql_limiter.go:46-254 | on every run of Locked, Fail and Success the memory limiter answers as the history calls for, and the SQL limiter answers the same for every non-blank key |
| `LoginLimiters.RunAlerts` | internal/session/sql_limiter.go:46-254 | on every run, after every call: alerts for one client are more than the cooldown apart, a failure that has a client at five accounts finds an alert no older than the cooldown, an alert is added only for such a failure, and the active accounts are those the history has not locked |
| `LoginLimiters.CountMeans` | internal/session/sql_limiter.go:77-117 | a count stands for at least that many failures of the key, all within one window |
| `LoginLimiters.LockedMeans` | internal/session/sql_limiter.go:138-151 | an account is locked only after as many failures of one of its account keys as the threshold asks for, all within one window |
| `LoginLimiters.BlankKeysDiffer` | internal/session/sql_limiter.go:46-80 | for a blank key they can differ: a failure locks it in memory and never in the table |
| `AuthSpray.PairIsReadIff` | internal/session/sql_limiter.go:272-298 | a text of four parts with "pair" second is read as service, address and client, in these roles, lowered and trimmed, exactly if all three are then non-empty, printable and no longer than 320 |
| `AuthSpray.PairKeyIsRead` | internal/groupware/handlers.go:131-139 | so the pair key that a handler builds is read back as what it was built from, and no other key of a login is read as a pair |
| `AuthSpray.AccountIsRead` | internal/session/sql_limiter.go:256-271 | a text of three parts with "account" second names the address in the third, lowered and trimmed |
| `AuthSpray.AccountKeyIsRead` | internal/session/sql_limiter.go:256-271 | the account key of a login names its address, if it is something, an @ sign and something with a dot, without blanks; its other keys name none |
| `AuthSpray.UnderAttackAreTried` | internal/session/sql_limiter.go:164-194 | in a minute of failed logins a client has under attack exactly the addresses it tried |
| `AuthSpray.SprayRun` | internal/session/sql_limiter.go:164-243 | whatever logins fail within a minute, a client is reported exactly if it is known and failed on five different addresses or more; many clients that fail on one address are not |
| `Dns.StoredMatches` | internal/admin/sql_store.go:2722-2802 | a record stored as it was asked for, under any id, matches what was asked for |
| `Dns.DesiredCloudflareRecords` | internal/admin/sql_store.go:2627-2651 | one Cloudflare record per DNS record, in order, with SRV text taken apart and the priority of MX |
| `Dns.SrvFormsAgree` | internal/admin/sql_store.go:2722-2777 | an SRV record (RFC 2782, "The format of the SRV RR") compares alike as page text, as structured data with numbers or texts of them, as four words, and as three words with the priority apart; data that lack a value or name a blank target are passed over |
| `Dns.SrvTextTells` | internal/admin/sql_store.go:2722-2777 | the texts that SRV records are compared by are equal, also when case is ignored, exactly if all four values are |
| `Dns.NormalFormIs` | internal/admin/sql_store.go:2140-2142 | the normal form of a name is lower case, without the white space around it and one dot at its end |
| `Dns.NormalHostIsNormal` | internal/admin/sql_store.go:2140-2142 | a plain host name is its own normal form |
| `Cloudflare.RelevantExisting` | internal/admin/sql_store.go:2695-2720 | the listed records in the way of or equal to the wanted one, in listing order |
| `Cloudflare.PlanCloudflareActions` | internal/admin/sql_store.go:2653-2693 | every wanted record is planned in order: create, ok, conflict or blocked, with the records it touches |
| `Cloudflare.SettledIffOK` | internal/admin/sql_store.go:2653-2720 | a wanted record is planned "ok" exactly when one record of the zone matches it and no other is relevant to it |
| `Cloudflare.OkMeans` | internal/admin/sql_store.go:2663 | a record of another type than SRV is planned "ok" exactly when one listed record is relevant to it, and that has its type, its content but for case and white space around it, its priority, and its proxy flag |
| `Cloudflare.SrvOkMeans` | internal/admin/sql_store.go:2663 | an SRV record is planned "ok" exactly when the one relevant record has its four values, in whichever form, and its proxy flag |
| `Cloudflare.ActionsMean` | internal/admin/sql_store.go:2653-2693 | create is planned exactly when nothing is relevant, blocked exactly when a CNAME would stand beside another type, and conflict for every other difference |
| `Cloudflare.ProxyReasonsMean` | internal/admin/sql_store.go:2653-2693 | a conflict is told to be about the proxy flag exactly if nothing else differs |
| `Cloudflare.WrongCaseIsOk` | internal/admin/sql_store.go:2663 | a DKIM key in lower case passes for the right one |
| `Cloudflare.CompatibleIsIrrelevant` | internal/admin/sql_store.go:2695-2720 | a stored wanted record is never relevant to a compatible other wanted record |
| `Cloudflare.OwnTypeIsIrrelevant` | internal/admin/sql_store.go:2695-2720 | nor is any record that has the type of one wanted record relevant to a compatible other one |
| `CloudflareApply.ApplyCloudflareDNS` | internal/admin/sql_store.go:2284-2360 | not ready and needing review leave the zone alone, the latter exactly when something is in the way and replace is off; otherwise zone, backup, `changed` and `deleted` are those of carrying out the plan action by action |
| `CloudflareApply.ApplyPlanned` | internal/admin/sql_store.go:2306-2358 | one planned action: nothing, a create, an update with the extra records deleted, or deletes and a create, none of them deleting an id twice |
| `CloudflareApply.DeleteTouched` | internal/admin/sql_store.go:2325-2353 | deletes the touched records that were not deleted before, counting and remembering them |
| `CloudflareConvergence.DeleteAllMeans` | internal/admin/sql_store.go:2325-2353 | deleting succeeds exactly when every record not deleted before is still there, and removes just those, each once |
| `CloudflareConvergence.Conservation` | internal/admin/sql_store.go:2292-2372 | with replace, records outside all touch sets are unchanged, the original of every other changed or deleted record is in the backup, no id is deleted twice, and `changed` is the number of calls |
| `CloudflareConvergence.WithoutReplace` | internal/admin/sql_store.go:2292-2316 | without replace no existing record is altered and only creates are called |
| `CloudflareConvergence.SharedTouch` | internal/admin/sql_store.go:2653-2720 | a record in the way of two wanted records has the type of neither, so deleting it for both is safe |
| `CloudflareConvergence.Converges` | internal/admin/sql_store.go:2284-2360 | after every prefix of the plan the records done stand alone in the zone and later touched ones are still there or were deleted on purpose |
| `CloudflareConvergence.Convergence` | internal/admin/sql_store.go:2284-2360 | from every zone and every wanted set whose records can stand beside each other, applying with replace succeeds, planning again says "ok" everywhere, and a further apply makes no call |
| `CloudflareConvergence.DivergesUnlessWellFormed` | internal/admin/sql_store.go:2284-2360 | if two wanted records cannot stand beside each other, filling an empty zone leaves one of them unsettled: the condition is exact |
| `CloudflareConvergence.AllOKDoesNothing` | internal/admin/sql_store.go:2306-2308 | a plan that is "ok" everywhere makes no call and changes nothing |
| `CloudflareConvergence.SettledNamesAreClean` | internal/admin/sql_store.go:2653-2720 | a settled CNAME is alone at its name and stands beside no other settled record (section 3.6.2 of RFC 1034) |
| `CloudflareConvergence.SettledSpfIsUnique` | internal/admin/sql_store.go:2695-2720 | a settled SPF record is the only one at its name (section 3.2 of RFC 7208) |
| `DomainDns.BuildDomainDNS` | internal/admin/sql_store.go:1490-1543 | the records are those of the slots the configuration calls for, in order; the mail host is `mail.` and the domain with one host per domain or when the configured one is empty, has no dot or ends in `.local`, and the configured one otherwise; the MX names it, with priority 10, an own host has its addresses, another one the alias, and no address is at the apex unless the host is; not provisionable exactly when an own mail host has no address |
| `DomainDns.MailHostRecords` | internal/admin/sql_store.go:1498-1510 | the mail host brings its addresses, or the alias to it, exactly when it belongs to the domain |
| `DomainDns.MailHostIs` | internal/admin/sql_store.go:1545-1562 | the mail host of a domain, in terms of its settings |
| `DomainDns.SettledIsServed` | internal/admin/sql_store.go:2653-2720 | a settled record of another type than SRV is in the zone with its content, priority and proxy flag, and unless it is text nothing else has its name and type |
| `DkimText.ZoneFormIsJoined` | internal/admin/sql_store.go:2826-2837 | the pieces of a DKIM text between the first opening and the last closing parenthesis, with any quotes, blanks and line ends around them, are published with one blank between them |
| `DkimText.BareTextIsJoined` | internal/admin/sql_store.go:2826-2837 | and so are pieces without parentheses |
| `DomainDns.AppendWebServiceAlias` | internal/admin/sql_store.go:1564-1580 | addresses of the own target or a CNAME to another one, appended to what there was |
| `DomainDns.NamesDiffer` | internal/admin/sql_store.go:1490-1543 | different places of one domain have different names, without regard to case, whatever the DKIM selector |
| `DomainDns.WellFormedIffNoClash` | internal/admin/sql_store.go:1490-1580 | the generated records can stand beside each other exactly when the published mail host is not a name the domain uses for something else |
| `DomainDns.ClashBreaks` | internal/admin/sql_store.go:1490-1580 | if it is, two generated records cannot stand beside each other |
| `DomainDns.SetupHostClashes` | internal/admin/sql_store.go:1490-1562 | a shared mail host set to autoconfig or autodiscover of the domain, with an address, always clashes |
| `DomainDns.SetupHostDoesNotSettle` | internal/admin/sql_store.go:1490-1562 | the records generated for such a host leave some wanted record unsettled after filling an empty zone |
| `DomainDns.ClashingConfiguration` | internal/admin/sql_store.go:1490-1562 | one such configuration, from its settings to the unsettled record |
| `DomainDns.PerDomainNeverClashes` | internal/admin/sql_store.go:1556-1562 | with one mail host per domain there is never a clash |
| `DomainDns.OrdinaryHostNeverClashes` | internal/admin/sql_store.go:1490-1580 | nor in any mode unless the mail host is webmail, madmin, autoconfig or autodiscover of the domain |
| `DomainDns.GeneratedRecordsConverge` | internal/admin/sql_store.go:1490-1580 | end to end: without a clash, check-apply-check of the generated records ends in "ok" everywhere, the zone has every generated record, the MX, address and SPF records with the values of the configuration, no wanted name has a CNAME beside another record, and the apex has exactly one SPF record |
| `DomainDns.ApexSpfIsUnique` | internal/admin/sql_store.go:1520 | the settled apex SPF record exists and is the only one |
| `EncryptedArchive.SizesRoundTrip` | internal/backup/backup.go:410-414 | the four size bytes and the size determine each other |
| `EncryptedArchive.Layout` | internal/backup/backup.go:25-26 | a file of one frame, byte by byte: the magic line, twelve bytes of nonce, four of size, highest first, and at most 65536 + 16 sealed bytes |
| `EncryptedArchive.EncryptFile` | internal/backup/backup.go:368-427 | a wrong key length and a read error are reported; otherwise the output is the magic line and one sealed frame per non-empty read, and decrypts to what was read |
| `EncryptedArchive.DecryptFile` | internal/backup/backup.go:480-536 | the reading loop accepts, rejects and returns exactly what the recursive reading of frames does, with the same reason |
| `EncryptedArchive.RoundTrip` | internal/backup/backup.go:368-536 | however reading cuts the input into pieces and whatever the nonces, decryption gives back what was encrypted |
| `EncryptedArchive.AcceptedIff` | internal/backup/backup.go:480-536 | an input is accepted, with a given plaintext, exactly when it is the magic line followed by whole frames that open to it |
| `EncryptedArchive.AcceptedIsFlat` | internal/backup/backup.go:500-535 | whatever is accepted consists of whole frames |
| `EncryptedArchive.DecodesFlat` | internal/backup/backup.go:500-535 | whole frames are decoded to what they hold, or refused if one does not open |
| `EncryptedArchive.BoundariesAreUnique` | internal/backup/backup.go:500-535 | two cuts of the same bytes into frames are the same cut |
| `EncryptedArchive.FramesCanBeMoved` | internal/backup/backup.go:500-535 | with the frames of an accepted archive, every choice of them in any order, with gaps and repetitions, is accepted and decrypts to just the chosen pieces |
| `EncryptedArchive.ArchiveIsEncrypted` | internal/backup/backup.go:471-478 | a file counts as encrypted exactly when it begins with the magic line; a shorter file does not |
| `EncryptedArchive.OpenArchive` | internal/backup/backup.go:429-469 | a file without the magic line is taken as it is, one with it needs a 32-byte key and is decrypted |
| `EncryptedArchive.OpensWhatWasWritten` | internal/backup/backup.go:368-469 | a backup is read back from its file whether it was written encrypted or not, and not without a key if it was |
| `FileTree.MergeIsSoundIff` | internal/backup/live_restore.go:195-251 | adding files and directories to a tree leaves a tree exactly when nothing would be a file on one side and a directory on the other |
| `BackupArchive.Create` | internal/backup/backup.go:68-127 | the archive holds every file and directory below the sources once, under the path below its source's name, then a manifest with matching kinds, sizes and sums; otherwise the first unusable source decides the error |
| `BackupArchive.ArchivePathIsProper` | internal/backup/backup.go:276-288 | an archive path has at least two components, all of them proper names |
| `BackupArchive.ArchivePathIsInjective` | internal/backup/backup.go:276-288 | two files or directories share an archive path only if they are the same one of the same source |
| `BackupArchive.NameIsInjective` | internal/backup/backup.go:285-288 | an archive name determines the archive path |
| `BackupArchive.NamesAreUnique` | internal/backup/backup.go:246-311 | no two archived items have the same name, and none has that of the manifest |
| `BackupArchive.ReadArchive` | internal/backup/backup.go:313-363 | reading stops at an unsafe name, of a file or a directory, and otherwise gives the last manifest and the sizes and sums of the files by name |
| `BackupArchive.Verify` | internal/backup/backup.go:133-163 | accepts exactly the archives with safe names, a version 1 manifest and a matching file for every file entry, and counts what the manifest lists |
| `BackupArchive.CreatedIsAccepted` | internal/backup/backup.go:68-163 | verification accepts a created archive exactly when the names of its files and directories pass safeRelative, and then counts every entry once, and every file with its size |
| `BackupArchive.CreatedCanBeRefused` | internal/backup/backup.go:557-562 | an empty directory below a directory named `foo..` is archived under a name that verification refuses, although the names of all files are safe |
| `BackupArchive.ManifestPathIsSafe` | internal/backup/backup.go:557-562 | the name of the manifest, and that it is safe |
| `BackupArchive.SafeNameIs` | internal/backup/backup.go:557-562 | a name is safe exactly if between its blanks something is left that begins with neither `/` nor `..` and in which `..` is nowhere followed by `/` |
| `Unpacking.StagedInPlaceIff` | internal/backup/backup.go:538-562 | an archived file or directory is unpacked at its archive path exactly when trimming leaves its name alone |
| `Unpacking.StagedNameIsNoLonger` | internal/backup/backup.go:538-562 | it is unpacked under a name no longer than its trimmed name |
| `Unpacking.SafeNamesLead` | internal/backup/backup.go:538-562 | below every directory a safe name leads to its staged path, exactly if it passes the second check of safeTarget; otherwise it leads to the directory above |
| `Unpacking.UnpackedIsSound` | internal/backup/backup.go:169-236 | unpacking any archive, wherever it stops, leaves a tree: everything lies in directories, and nothing is both a file and a directory |
| `Unpacking.UnpackedHolds` | internal/backup/backup.go:199-233 | an archive that was unpacked has left a file at every staged path of one, and exactly the directories of its directory entries and those above its files |
| `Unpacking.StagingIs` | internal/backup/backup.go:169-236 | unpacking a created archive into an empty tree goes through and puts every file, and no other, at its archive path exactly when trimming leaves the names of files alone and no directory leads out of the tree or is unpacked at or below a file under its trimmed name |
| `Unpacking.ChangedNamesLeaveAGap` | internal/backup/backup.go:538-562 | if trimming changes the archive name of some file, some archived file is not at its archive path, even if another file is unpacked elsewhere by chance |
| `Unpacking.PlainNamesFit` | internal/backup/backup.go:276-288 | if trimming leaves the names of directories alone too, no directory gets in the way of a file |
| `Unpacking.PlainDirsStage` | internal/backup/backup.go:202-209 | and the directories of the staging tree are then exactly those of the backup at their archive paths, and one for every source with entries |
| `Unpacking.PlacesDoNotClash` | internal/backup/backup.go:276-288 | nothing has an archive path below that of a file |
| `Unpacking.VerifiedBackupNeedNotUnpack` | internal/backup/backup.go:169-236 | two files "a" and " " of one directory make an archive whose names are safe and whose unpacking fails, in either order |
| `Unpacking.DirectoryCanBlockAFile` | internal/backup/backup.go:202-209 | a file "a" beside a directory "a " makes an archive whose names are safe, whose file names trimming leaves alone, and whose unpacking fails because the directory is made at "a" |
| `LiveRestore.RestoreSucceedsIff` | internal/backup/live_restore.go:128-251 | with Overwrite the mappings all go through, over any live tree and from any staging tree, exactly when each is allowed, does not start below a staged file and leads to no file at the root, and in the tree they leave behind nothing is both a file and a directory |
| `LiveRestore.CopiedIsClosed` | internal/backup/live_restore.go:195-220 | what a mapping copies is a tree by itself, with the directories it lies in |
| `LiveRestore.Disk.CopyFile` | internal/backup/live_restore.go:222-251 | writes the file, making the directories above it, exactly when its path can be opened and, without overwriting, does not exist yet |
| `LiveRestore.Disk.MakeDir` | internal/backup/live_restore.go:209-211 | makes the directory and those above it exactly when none of them is a file |
| `LiveRestore.Disk.CopyDir` | internal/backup/live_restore.go:195-220 | in any order of walking, succeeds exactly when every directory can be made and every file written, and then adds just those; a failure leaves some of them |
| `LiveRestore.Disk.RestoreMapping` | internal/backup/live_restore.go:163-193 | blank and unsafe mappings and those that lead out of the staging tree fail, a missing source is skipped, one below a file fails, an existing target fails without overwriting; otherwise the source is copied to the target |
| `LiveRestore.Disk.Unpack` | internal/backup/backup.go:169-236 | unpacks exactly the archives that verify, item by item, stopping at the first item that leads out of the tree or cannot be made |
| `LiveRestore.Disk.RestoreLive` | internal/backup/live_restore.go:83-161 | verifies, stages and restores the mappings in order; succeeds exactly when each step does, never changes a file outside the targets, removes no directory, and makes new ones only at, below or above targets |
| `BackupRestore.GoesBack` | internal/backup/live_restore.go:163-220 | a staged file or directory is below a mapping's source exactly when it came from the mapped source, and is then copied to the path it came from |
| `BackupRestore.MappingRestoresFiles` | internal/backup/live_restore.go:163-220 | with the files of the backup in place, a mapping copies exactly the files of its source, to their original paths |
| `BackupRestore.MappingRestores` | internal/backup/live_restore.go:163-220 | with the directories in place too, it copies exactly its source |
| `BackupRestore.FilesThenRestore` | internal/backup/live_restore.go:128-251 | restoring over any live tree then changes its files to those of the mapped sources, each at its own path with its own contents, and no other, however the targets overlap |
| `BackupRestore.BackupThenRestore` | internal/backup/live_restore.go:128-251 | with the directories in place too, it adds exactly the files and directories of the mapped sources |
| `BackupRestore.BackupIsMovable` | internal/backup/live_restore.go:163-193 | with the files of the backup in place, nothing but a clash can keep a mapping of the backup from being restored |
| `BackupRestore.RestoreOfBackup` | internal/backup/live_restore.go:83-161 | a restore of any created archive over any tree succeeds exactly when the names are safe, the archive unpacks, every mapping can be moved and nothing becomes both a file and a directory, with counts that match; if trimming leaves the names of files alone and no directory is in their way, the files put back are those of the mapped sources; if it leaves all names alone, the mapped sources are put back exactly, unless they clash with the live tree |
| `BackupRestore.BackUpAndRestore` | internal/backup/backup.go:68-163 | the same for a backup and its restore from end to end, whatever happens in between |
| `Installation.TablesAgree` | cmd/mailctl/main.go:1406-1445 | the backup and restore tables lead every source back to where it came from exactly when the configured directories are named, the nginx configuration is a file or missing, and the other sources are not files |
| `Installation.BackUpAndRestoreInstalled` | cmd/mailctl/main.go:1185-1194 | a scheduled backup of an installed system, with or without the database dump, and its live restore with the tables as they stand: the backup is made exactly unless the dump is missing or some source lies below a file, and the restore comes to what it does for any backup |
| `TlsJobs.StepKeeps` | cmd/mailctl/main.go:617-811 | every statement of every worker, done, failed or done without a report, keeps the invariant: distinct claims, one worker in a job, progress below what is still to come |
| `TlsJobs.RunKeeps` | cmd/mailctl/main.go:617-811 | the invariant holds after every run of any number of workers |
| `TlsJobs.StepMovesOn` | cmd/mailctl/main.go:661-811 | a statement moves a row on by at most one status and never lowers its progress; it is the claim of the acting worker or a write of the worker that is in the job |
| `TlsJobs.HistoryMovesOn` | cmd/mailctl/main.go:617-811 | between any two moments of any run every row only moves on: queued, running, finished; progress never drops; a finished row can at most turn from success to failure |
| `TlsJobs.FinishedRowChangesOnlyIf` | cmd/mailctl/main.go:724-729 | a finished row changes only from success to failure, written by its claimant after the report of that very success was lost |
| `TlsJobs.LostSuccessBecomesFailure` | cmd/mailctl/main.go:643-646 | and then it does: the next write that takes effect makes the success a failure |
| `TlsJobs.FinishedRowsStay` | cmd/mailctl/main.go:617-811 | in a run without such a loss a finished row never changes |
| `TlsJobs.ClaimedOnce` | cmd/mailctl/main.go:661-690 | however workers interleave SELECT and conditional UPDATE, a job is claimed at most once |
| `TlsJobs.OnlyTheClaimantWrites` | cmd/mailctl/main.go:692-811 | whatever is written to a job that left the queue is written by the one worker that claimed it |
| `TlsJobs.SuccessIsEarned` | cmd/mailctl/main.go:692-759 | no run makes a job succeed that has no host name or needs a challenge that is not automated |
| `TlsJobs.LimitIsKept` | cmd/mailctl/main.go:633-647 | in every run a worker claims no more jobs than its limit, and when it is idle exactly as many as it has used up |
| `TlsJobs.AbandonedStays` | cmd/mailctl/main.go:661-690 | a job that has left the queue and that no worker is at stays as it is in every run that follows |
| `TlsJobs.StoppedJobIsStuck` | cmd/mailctl/main.go:661-690 | so a job whose worker stops in the middle of it, or is not told that its claim went through, stays running for good |
| `TlsJobs.ChoosesIff` | cmd/mailctl/main.go:661-677 | a worker chooses a job exactly if it is idle within its limit and the job is queued and the first by creation and number |
| `TlsJobs.TakesAlone` | cmd/mailctl/main.go:681-689 | a claim of a job still queued marks it running if it takes effect, and the worker goes on exactly if it is told |
| `TlsJobs.WalksAlone` | cmd/mailctl/main.go:692-811 | from any reachable state a worker whose steps are the only ones takes its job through the points in the order of the program and changes no other row |
| `TlsJobs.SucceedsIff` | cmd/mailctl/main.go:692-759 | a claimed job succeeds exactly when certbot, the report after it, the inventory and the commands go well and the last statement is done, or done without a report while the failure that follows is not recorded; other lost reports do not matter |
| `TlsJobs.JobTable.ClaimTLSJob` | cmd/mailctl/main.go:661-690 | finds the queued job created first, the smaller number deciding between equals, if there is one, and marks just that row running, with progress 5 |
| `TlsJobs.JobTable.UpdateTLSJobProgress` | cmd/mailctl/main.go:795-801 | changes the progress of one row, or nothing if the statement has no effect, and passes on whether it was reported done |
| `TlsJobs.JobTable.RunCertbotForTLSJob` | cmd/mailctl/main.go:731-759 | leaves the row where the state machine is after its certbot points, going on exactly when the challenge is automated and both certbot and the report after it went well |
| `TlsJobs.JobTable.ProcessTLSJob` | cmd/mailctl/main.go:692-729 | the program, statement by statement, leaves the row the state machine leaves, for every outcome of its statements and commands |
| `Sessions.Manager.constructor` | internal/session/manager.go:229-249 | no sessions, and eight hours for a missing lifetime |
| `Sessions.Manager.Create` | internal/session/manager.go:251-285 | adds one session under a fresh token |
| `Sessions.Manager.Validate` | internal/session/manager.go:287-308 | accepts exactly an unexpired session of the same browser; drops it from the table exactly when it is found expired |
| `Sessions.Manager.ValidateUnsafe` | internal/session/manager.go:310-323 | accepts exactly if also the CSRF token, from either header, is right |
| `Sessions.Manager.Clear` | internal/session/manager.go:325-332 | removes the session of the cookie and no other |
| `Sessions.Manager.InvalidateSubject` | internal/session/manager.go:334-350 | removes exactly the sessions of the subject, without regard to case, and of the kind if one is given, and counts them |
| `Sessions.Manager.MarkStepUp` | internal/session/manager.go:352-373 | marks exactly the session that an unsafe validation accepts, for a positive time |
| `Sessions.Manager.HasRecentStepUp` | internal/session/manager.go:375-384 | says yes exactly to a valid session whose step-up has not run out |
| `Sessions.StepKeeps` | internal/session/manager.go:251-384 | every locked section of every call keeps the invariant, and forgets nothing that was recorded |
| `Sessions.RunKeeps` | internal/session/manager.go:251-384 | so does every interleaving of any number of calls |
| `Sessions.RemovedNeverReturns` | internal/session/manager.go:251-384 | a token that was in the table and is gone never comes back, whatever other calls were in the middle of |
| `Sessions.RemovedIsRefused` | internal/session/manager.go:287-297 | a call that looks up a removed token is refused |
| `Sessions.OutlivesInvalidation` | internal/session/manager.go:334-350 | a session of a subject that was invalidated is in the table at a later moment exactly when its Create put it there after the invalidation and nothing has removed it since, in every interleaving |
| `Sessions.DrawnOutlivesInvalidation` | internal/session/manager.go:251-285 | a Create call that has drawn its token when its subject is invalidated still puts the session into the table, where its cookie finds it |
| `Sessions.AcceptedMeans` | internal/session/manager.go:287-323 | a call accepts only a session created under its token, unexpired, of the same browser and, if unsafe, with the right CSRF token |
| `Sessions.MarksAreMade` | internal/session/manager.go:352-373 | every recorded step-up was made in the locked section of some MarkStepUp that found its session |
| `Sessions.RecentStepUpMeans` | internal/session/manager.go:352-384 | in every interleaving, a yes of HasRecentStepUp means an earlier MarkStepUp on the same token, by a request with that session's browser and CSRF token, whose time is not over |
| `Sessions.AloneAgrees` | internal/session/manager.go:287-384 | a call that nothing interrupts gives the answer of the method |
| `Sessions.AloneTable` | internal/session/manager.go:287-384 | and leaves the table of the method |
| `Sessions.DrawnAlone` | internal/session/manager.go:251-285 | a Create that nothing interrupts draws only a new token and leaves the table of the method |

## Left out

- HTTP handlers, JSON, the web interface, templates, audit texts and health checks: input, output and constants.
- Real SQL, the Cloudflare API, certbot, systemctl and the file system: tables, zones and trees are maps; a statement, an API call or a file operation is one step.
- Cryptography and randomness: AES-GCM is any pair of functions with the two laws in `EncryptedArchive.Lawful`, SHA-256 sums are any function, drawn tokens never repeat, and a token stands for its hash.
- gzip and tar encoding, file modes, ownership and symbolic links: an archive is a sequence of named files and directories with a manifest, and a tree is a map from paths to contents with a set of directories.
- Ties in sorting: backups have distinct times (`Retention`) and effective penalties distinct thresholds wherever order would decide.
- Unicode: case folding and trimming are those of ASCII.
- `parseBackupName` as string parsing, and bucket keys as strings: a directory entry carries the time of its name, a bucket is a pair of numbers.
- `normalizePenaltySchedule` (choice of a schedule), and how a password is checked: it takes any time, and other logins go on meanwhile.
- The texts of warnings, reasons, purposes, client setup, samples and summaries, the `required` flag of DNS records, and the sizes and sums in drift items.
- Database import, services and permissions of a live restore; the staging directory is a tree of its own.
- Relative restore targets: a target is taken from the root.
- LoginLimiters.SQLLoginLimiter.Fail: does not model database errors, rounding of stored times, keys that the database compares without regard to case, or an administrator activating an account again.
- LoginLimiters.SQLLoginLimiter.RecordAuthSprayAlert: does not model wildcards in service names or the length limit of the audit target.
- CloudflareApply.ApplyCloudflareDNS: after an API error it says nothing about the zone, since how far the calls got depends on the service.
- Dns.SrvFormsAgree: numbers in structured data are integers; a JSON fraction would be cut off.
- Retention.BackupDir.Prune: removing a file always succeeds; a failure would stop the loop with the rest still there. `now` is in UTC.
- BackupArchive.Create: names of sources are single path components or empty, and the order of walking is left open.
- TlsJobs.StepKeeps: errors that end a worker, and the end of its work, are all `Stop`.
- Sessions.Manager.Create: cookies, the random tokens themselves and the browser fingerprint's make-up are not modelled; `ttl` is in seconds.
