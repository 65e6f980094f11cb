# Moodle backup archival, log retention and two AI value classes, in Dafny

This project models the core of the backup archival path of a Moodle site and
proves properties of that model. Nothing in it runs; the verifier checks every
contract.

The parts modelled:

- **Storing a finished backup** (`backup_helper::store_backup_file`), in `backup_store.dfy`.
  - It maps the backup's type and mode to a file-store address.
  - For automated backups it first copies the archive to an external directory or an S3 bucket.
  - It replaces any file already at the address.
  - It removes the temporary archive whenever an exception escapes.
- **The S3 destination grammar** of `backup_helper::store_backup_file_s3`, in `s3_destination.dfy`.
  - The PHP string built-ins it relies on are in `php_strings.dfy`: `empty()`, `rtrim()`, `strpos`/`explode` and `stripos() === 0`.
- **The temp-directory janitor**.
  - `delete_dir_contents` runs over a directory tree given as a value, with fault sets for `opendir`, `unlink` and `rmdir` (`temp_janitor.dfy`).
  - `clear_backup_dir`, `delete_backup_dir` and `delete_old_backup_dirs` run over the temp root, a class whose entries they change (`backup_temp_dir.dfy`).
- **The message formatting of `backup_helper::log`**, in `helper_log.dfy`.
- **The command-line backup script** `admin/cli/backup.php`, in `backup_cli.dfy`.
  - It trims and classifies the destination.
  - It checks the destination before the backup runs.
  - It builds the S3 key and closes the upload handle on every path.
  - It decides whether the stored file is deleted after the copy.
- **The standard log store's cleanup task**, in `log_cleanup.dfy`.
  - It computes a cutoff from the configured lifetime.
  - It deletes old rows in batches of at most 131072.
  - It gives up once 300 seconds have passed since the start.
- **The AI image-generation response object**, in `ai_responses.dfy`.
- **The AI rate-limit (HTTP 429) error**, in `ai_errors.dfy`.

Outside services are inputs to the model:

| service | modelled as |
|---|---|
| backup controller | the backup's detail and settings records |
| context lookups | maps from ids to context ids |
| `get_config` | an `AutoConfig` value |
| the S3 client | a gateway value: the buckets that exist, and how `putObject` answers |
| the file system | booleans and fault sets |
| `time()` | a parameter, or a sequence of clock readings |

PHP exceptions are modelled as the `Failure` side of a `Result`. A script that calls `die` or exits is modelled as an `Ending` value.

## Model

| member | source | states |
|---|---|---|
| PhpStrings.RTrim | backup/util/helper/backup_helper.class.php:444 | rtrim with one character returns a prefix of the input. The result does not end in that character, and everything trimmed away was that character. |
| PhpStrings.Find | backup/util/helper/backup_helper.class.php:442 | strpos returns the first position where the pattern occurs, and none if it never occurs. |
| PhpStrings.SplitAtFirst | backup/util/helper/backup_helper.class.php:428-433 | The two explode halves around the first separator put back together give the original string. The first half holds no separator. |
| PhpStrings.FindCharAt | backup/util/helper/backup_helper.class.php:432-433 | The first occurrence of a character is found at its position. |
| PhpStrings.FindCharAbsent | backup/util/helper/backup_helper.class.php:442 | A character that does not occur is not found. |
| S3Destination.ParseS3UrlSound | backup/util/helper/backup_helper.class.php:428-448 | A parsed bucket is non-empty in PHP's sense and holds no "/". The prefix is empty, "0", or ends in exactly one "/". Trimming the prefix gives the folder text. The bucket path is the bucket, alone or followed by "/" and the rest. |
| S3Destination.RTrimAppended | backup/util/helper/backup_helper.class.php:444-446 | Appending "/" to a folder and trimming again gives the folder back. |
| S3Destination.SchemeStripped | backup/util/helper/backup_helper.class.php:428-429 | After "s3://", the bucket path is the rest of the url. |
| S3Destination.SplitBucketPath | backup/util/helper/backup_helper.class.php:432-448 | With the first "/" at k, the bucket is the text before k and the prefix comes from the text after k. |
| S3DestinationExamples.ParseWithFolder | backup/util/helper/backup_helper.class.php:428-448 | An s3:// url with its first bucket-path "/" at k: the bucket and prefix are the two sides of that "/". |
| S3DestinationExamples.ExampleBucketOnly | backup/util/helper/backup_helper.class.php:428-448 | "s3://bucket" gives the bucket "bucket" and an empty prefix. |
| S3DestinationExamples.ExampleTrailingSlash | backup/util/helper/backup_helper.class.php:442-448 | "s3://bucket/a/b/" gives the prefix "a/b/". |
| S3DestinationExamples.TrimmedFolder | backup/util/helper/backup_helper.class.php:444-446 | The folder "a/b/" is trimmed to "a/b" and gets one "/" back. |
| S3DestinationExamples.UntrimmedFolder | backup/util/helper/backup_helper.class.php:444-446 | The folder "foo/bar" gets one "/" appended. |
| S3DestinationExamples.ExampleNoTrailingSlash | backup/util/helper/backup_helper.class.php:442-448 | "s3://bucket/foo/bar" gives the prefix "foo/bar/". |
| S3DestinationExamples.ExampleNoBucket | backup/util/helper/backup_helper.class.php:434-437 | "s3://" is rejected as misconfigured. |
| S3DestinationExamples.ExampleZeroBucket | backup/util/helper/backup_helper.class.php:434-437 | A bucket named "0" is rejected, because empty() treats "0" as empty. |
| S3DestinationExamples.ExampleZeroFolder | backup/util/helper/backup_helper.class.php:444-459 | A folder "0" gets no "/", so the key is "0" followed directly by the file name. |
| BackupStore.ComputeAddress | backup/util/helper/backup_helper.class.php:265-316 | The switch on the type and the if/elseif chain on the mode give exactly the address of the table `FileAddress`. A missing context is an error. |
| BackupStore.UserAndCourseAreasDisjoint | backup/util/helper/backup_helper.class.php:290-316 | A backup routed to a user area never shares an address with one kept in the backup component. |
| BackupStore.NonZeroItemOnlyForSections | backup/util/helper/backup_helper.class.php:266-309 | Only section backups in the backup component get a non-zero item id. The component is "user" exactly for HUB backups and for GENERAL backups without users or anonymised. |
| BackupStore.SettingsMatterOnlyForGeneral | backup/util/helper/backup_helper.class.php:287-309 | Outside GENERAL mode, the users and anonymise settings never change where the file goes. |
| BackupStore.OtherModesKeepTypeArea | backup/util/helper/backup_helper.class.php:265-311 | A backup in a mode the chain does not name stays in its type's context, under component "backup" and its type's area. |
| BackupStore.Storage.constructor | backup/util/helper/backup_helper.class.php:220-231 | The world starts with the temp archive present, the given content store and the given external directory. No S3 requests have been sent. |
| BackupStore.Storage.StoreBackupFileS3 | backup/util/helper/backup_helper.class.php:423-475 | It fails exactly as `S3Failure` says: a misconfigured url, a missing bucket, a transport exception, or a status other than 200. It sends one putObject for the parsed bucket and key exactly when the url parses and the bucket exists. |
| BackupStore.Storage.CopyExternal | backup/util/helper/backup_helper.class.php:318-344 | The automated external copy fails exactly as `ExternalFailure` says. The directory gets the archive only on a successful copy, and S3 gets a request only when it is reached. |
| BackupStore.Storage.StoreInPool | backup/util/helper/backup_helper.class.php:365-388 | Any file at the address is deleted, then the new one is created from the archive and the archive is unlinked. If creation fails, the address is left empty. |
| BackupStore.Storage.RouteArchive | backup/util/helper/backup_helper.class.php:318-388 | Once the file's address is known, it fails exactly as `RoutingFailure` says: the external copy's error, and otherwise the store's error unless the external copy is the only one. The external copy happens only for an automated backup with storage switched on. Storage setting 1 stores nothing in the content store and removes the archive. |
| BackupStore.Storage.StoreAttempt | backup/util/helper/backup_helper.class.php:227-388 | The try block ends as `ExpectedFailure` says, including IMPORT's early null return. It leaves the content store, directory and S3 requests as stated. |
| BackupStore.Storage.StoreBackupFile | backup/util/helper/backup_helper.class.php:220-403 | IMPORT returns null and changes nothing. Every other mode ends without the temp archive. It fails exactly when `ExpectedFailure` says and with that error. A stored file sits at the computed address with the archive's content, and every other address is unchanged. Null otherwise means storage 1 after an external copy. |
| TempJanitor.Positions | backup/util/helper/backup_helper.class.php:114-121 | The readdir loop's list holds exactly the positions of the listed entries of that kind, in increasing order. |
| TempJanitor.FirstUnlinkFault | backup/util/helper/backup_helper.class.php:124-129 | It gives the first listed file whose unlink fails, after every earlier one succeeded. |
| TempJanitor.FileStop | backup/util/helper/backup_helper.class.php:124-129 | It gives the position in the file list where unlinking stops, if it stops. |
| TempJanitor.SubdirStop | backup/util/helper/backup_helper.class.php:132-141 | It gives the first subdirectory that cannot be emptied or removed. |
| TempJanitor.Fates | backup/util/helper/backup_helper.class.php:86-148 | Each entry's outcome, kept or removed, is in the position of that entry. |
| TempJanitor.Present | backup/util/helper/backup_helper.class.php:86-148 | It lists the entries that remain, in order. Its length is at most the number of outcomes. |
| TempJanitor.FatesMatch | backup/util/helper/backup_helper.class.php:86-148 | A list of outcomes that agrees with each entry's fate, position by position, is the whole list of fates. |
| TempJanitor.ListEntries | backup/util/helper/backup_helper.class.php:113-121 | The readdir loop builds the file list and the subdirectory list, skipping ".", ".." and the excluded name. |
| TempJanitor.AllPresent | backup/util/helper/backup_helper.class.php:102-103 | Before deletion starts, every entry is still present. |
| TempJanitor.UnlinkFiles | backup/util/helper/backup_helper.class.php:123-129 | Files are unlinked in list order until the first failure. Each unlinked file is gone and every other entry remains. |
| TempJanitor.SubdirOutcomeIsFate | backup/util/helper/backup_helper.class.php:132-141 | When every file unlinked, the subdirectory loop's outcome for each entry is that entry's fate. |
| TempJanitor.OneMoreRemoved | backup/util/helper/backup_helper.class.php:132-141 | Removing one more subdirectory keeps the loop's record of what is gone. |
| TempJanitor.SubdirPassed | backup/util/helper/backup_helper.class.php:134-139 | A subdirectory that empties and is removed moves the stop point past it. |
| TempJanitor.StoppedAtSubdir | backup/util/helper/backup_helper.class.php:134-139 | When subdirectory m is the first that cannot be emptied or removed, the loop's outcomes are these: the entries before it are gone, it keeps what its own call left, and later entries are untouched. |
| TempJanitor.AllSubdirsRemoved | backup/util/helper/backup_helper.class.php:132-147 | When no subdirectory fails and every listed entry is gone, the loop's outcomes are the subdirectory outcomes. |
| TempJanitor.DeleteDirContents | backup/util/helper/backup_helper.class.php:86-148 | It succeeds exactly when no open, unlink or subdirectory step fails. The tree afterwards is `AfterDelete`. A path that is not a directory succeeds and is unchanged. The directory itself stays. It succeeds with no handle left open. A failure after a successful open leaves that handle unclosed. |
| TempJanitor.DeleteDirContentsAt | backup/util/helper/backup_helper.class.php:86-97 | A path that does not exist succeeds and nothing is created there. An existing entry is handled as `DeleteDirContents` handles it. |
| TempJanitor.RemoveSubdirs | backup/util/helper/backup_helper.class.php:131-141 | Subdirectories are emptied and removed in list order until the first failure. |
| TempJanitor.PresentHas | backup/util/helper/backup_helper.class.php:86-148 | An entry whose outcome is "kept" appears among the remaining entries. |
| TempJanitor.PresentIsKept | backup/util/helper/backup_helper.class.php:115-118 | Outcomes that keep exactly the skipped entries leave exactly `Kept`. |
| TempJanitor.FateOfEntry | backup/util/helper/backup_helper.class.php:86-148 | An entry whose fate is to stay is still in the directory afterwards. |
| TempJanitor.EmptiedExceptExcluded | backup/util/helper/backup_helper.class.php:113-147 | On success the directory is still there, with its name and time. It holds exactly the entries named ".", ".." or the excluded name. |
| TempJanitor.SubdirectoryEmptiedCompletely | backup/util/helper/backup_helper.class.php:134 | A subdirectory is emptied completely on success, because the recursion passes no excluded name. |
| TempJanitor.NothingKept | backup/util/helper/backup_helper.class.php:115-118 | With no excluded name and proper entry names, nothing is skipped. |
| TempJanitor.SkippedEntriesSurvive | backup/util/helper/backup_helper.class.php:115-118 | ".", ".." and the excluded entry survive whatever fails. |
| TempJanitor.LaterEntriesLeftAlone | backup/util/helper/backup_helper.class.php:126-139 | Every entry later in the deletion order than the first failure is left as it was. |
| BackupTempDirs.ClearedDirectoryRemovable | backup/util/helper/backup_helper.class.php:68-72 | After a successful clear, a backup directory with proper names is empty. rmdir then fails only where removal is refused. |
| BackupTempDirs.Untouched | backup/util/helper/backup_helper.class.php:164-177 | A sweep step that touches one entry keeps the other entries as earlier steps left them. |
| BackupTempDirs.SweepStep | backup/util/helper/backup_helper.class.php:164-177 | A step on the next listed entry, made as the sweep makes it, keeps every entry the sweep must spare. A step that keeps the status true extends the dealt-with prefix by one. Any other step leaves the sweep stopped at that old directory, with the exception or false that its removal produced. |
| BackupTempDirs.BackupTempDir.constructor | backup/util/helper/backup_helper.class.php:162 | The temp root starts with the given entries and no open handles. |
| BackupTempDirs.BackupTempDir.MakeBackupTempDirectory | backup/util/helper/backup_helper.class.php:52 | The backup's directory is there afterwards. It is created empty if it was missing, and no other entry changes. |
| BackupTempDirs.BackupTempDir.ClearBackupDir | backup/util/helper/backup_helper.class.php:51-57 | The directory is emptied as `delete_dir_contents` does. It returns true exactly when that succeeds, and throws cannot_empty_backup_temp_dir otherwise. Handles leak only on failure. |
| BackupTempDirs.BackupTempDir.DeleteBackupDir | backup/util/helper/backup_helper.class.php:68-72 | The clear's exception passes through. Otherwise it returns rmdir's result on the cleared directory, and the entry is gone exactly when that is true. The set of open handles never shrinks, and it is unchanged on success. When the clear fails after its directory was opened, that directory's handle stays open. |
| BackupTempDirs.BackupTempDir.SweepEntry | backup/util/helper/backup_helper.class.php:165-176 | Only the entry handled may change. A young entry is untouched and the status stays true. An old file is unlinked unless the unlink fails, and the status stays true. An old directory goes through delete_backup_dir: it is gone and the status stays true, or, when the clear or rmdir fails, it is left cleared as far as the clear got. The clear's exception passes through, and a refused rmdir makes the status false. The set of open handles never shrinks and is unchanged on success. When the clear fails after opening the entry, its handle stays open. |
| BackupTempDirs.BackupTempDir.DeleteOldBackupDirs | backup/util/helper/backup_helper.class.php:159-181 | No entry is added. Entries at or after the cutoff, and entries the listing leaves out, are unchanged. On success every old listed entry is dealt with. On failure the sweep stopped at an old directory whose removal failed, left cleared. Every old entry listed before it is dealt with, and every entry listed after it is untouched. The exception is cannot_empty_backup_temp_dir when the clear failed, and problem_deleting_old_backup_temp_dirs when only rmdir failed. The set of open handles never shrinks, and a successful sweep leaves it unchanged. When the sweep ends with the clear's exception after the directory was opened, that directory's handle stays open. |
| HelperLog.ImplodeLength | backup/util/helper/backup_helper.class.php:194 | The join is as long as its items plus two per gap. |
| HelperLog.ImplodeEnds | backup/util/helper/backup_helper.class.php:194 | The join starts with the first item and ends with the last. |
| HelperLog.ImplodeItemAt | backup/util/helper/backup_helper.class.php:194 | Every item of the join is in it, in order: item i sits after the items before it and one ", " for each, and a ", " follows every item but the last. |
| HelperLog.LoggedItems | backup/util/helper/backup_helper.class.php:191-196 | An empty $a logs the bare message. Otherwise the logged message is the message, one space, and every item of $a at its place in the join. |
| HelperLog.Log | backup/util/helper/backup_helper.class.php:189-202 | The logger gets the level, and a depth option exactly when the depth is not empty. The output call happens exactly when display is set. |
| HelperLog.LoggedMessageExtends | backup/util/helper/backup_helper.class.php:191-201 | The logged message begins with the message. The display gets the untranslated message with the same $a and depth. |
| HelperLog.SingleItemLogged | backup/util/helper/backup_helper.class.php:193-194 | A single non-empty text is appended after one space. |
| HelperLog.LoggedLength | backup/util/helper/backup_helper.class.php:193-194 | The logged message is longer than the message by exactly one space, the items' lengths, and two characters per gap between items. |
| BackupCli.TrailingSlashIgnored | admin/cli/backup.php:73 | Trailing slashes never change how a destination is read. |
| BackupCli.SlashesOnlyIsNoDestination | admin/cli/backup.php:73-74 | A destination of only slashes is none at all. |
| BackupCli.ZeroIsNoDestination | admin/cli/backup.php:73-74 | "0", with any trailing slashes, is no destination. |
| BackupCli.SchemeAloneIsLocal | admin/cli/backup.php:73-88 | A bare "s3://" is trimmed to "s3:" and checked as a local directory. |
| BackupCli.CliBucketMatchesHelper | admin/cli/backup.php:75-77 | The bucket the script checks is the bucket the helper parses from the same trimmed destination. |
| BackupCli.CliKeyMatchesHelper | admin/cli/backup.php:125-131 | Unless the folder is "0", the script's key equals the helper's prefix followed by the file name. |
| BackupCli.ZeroFolderDisagrees | admin/cli/backup.php:125-131 | With the folder "0", the script uploads under the bare file name, while the helper would use "0" and the file name. |
| BackupCli.CliWorld.constructor | admin/cli/backup.php:64 | Nothing has run yet, and no handle is open. |
| BackupCli.CliWorld.Validate | admin/cli/backup.php:33-92 | It stops as `Validation` says: help, no admin, an empty or unknown bucket, or an unusable directory. When it passes, the destination is the trimmed one, classified. |
| BackupCli.CliWorld.SendToS3 | admin/cli/backup.php:123-151 | The handle is closed on every path. A thrown upload dies. Status 200 reports success and any other status reports failure. Exactly one upload is recorded when the handle opens. |
| BackupCli.CliWorld.CopyToDirectory | admin/cli/backup.php:153-162 | With no backup file nothing is copied. Otherwise the file is written to the directory and deleted from the course area exactly when copy_content_to succeeds, and it stays there when the copy fails. |
| BackupCli.CliWorld.BackUpAndSend | admin/cli/backup.php:102-167 | Once validation passed and the course exists, it ends as `ExpectedEnding` says, with no handle open. It records one course backup in GENERAL mode by the admin. The stored file goes only after a successful local copy, and an upload is recorded exactly when the handle opens for a bucket destination. |
| BackupCli.CliWorld.Run | admin/cli/backup.php:64-167 | It ends as `ExpectedEnding` says, with no handle open. It changes nothing unless the backup runs. The backup is always a course backup in GENERAL mode by the admin. The stored file is deleted only after a successful local copy. Uploads and local copies happen exactly as stated. |
| LogCleanup.DeleteBatch | admin/tool/log/store/standard/classes/task/cleanup_task.php:75-77 | The rows with the batch's ids go, and every other row stays unchanged. |
| LogCleanup.BatchShrinksOldRecords | admin/tool/log/store/standard/classes/task/cleanup_task.php:62-77 | Deleting a batch of old ids lowers the number of old rows by the batch size. This is the loop's termination measure. |
| LogCleanup.SubsetOfSize | admin/tool/log/store/standard/classes/task/cleanup_task.php:62-69 | The select can always return min(old rows, 131072) ids. |
| LogCleanup.AccountedStep | admin/tool/log/store/standard/classes/task/cleanup_task.php:61-84 | One more batch keeps the loop's bookkeeping true: rows only go, each gone row was old and lies in some batch, and each batch holds 1 to 131072 ids. |
| LogCleanup.NothingOldLeft | admin/tool/log/store/standard/classes/task/cleanup_task.php:70-73 | When the select comes back empty, the table is exactly the young rows it started with. |
| LogCleanup.LogStore.constructor | admin/tool/log/store/standard/classes/task/cleanup_task.php:47 | The table starts as given. |
| LogCleanup.LogStore.Execute | admin/tool/log/store/standard/classes/task/cleanup_task.php:47-86 | A lifetime of 0 or less deletes nothing. The cutoff is computed once, as the first reading minus lifetime·86400. Only rows created before the cutoff go, and the rest stay unchanged. Each batch has 1 to 131072 ids, and the batches are exactly the deleted rows. A run that finishes leaves only young rows. A run that times out stopped at the first batch after which more than 300 seconds had passed. |
| AiResponses.Projected | public/ai/classes/aiactions/responses/response_generate_image.php:62-77 | The data an array leads to have exactly the four keys. |
| AiResponses.ProjectedEntries | public/ai/classes/aiactions/responses/response_generate_image.php:63-66 | Each of the four keys carries the array's value, or null when the array lacks it. |
| AiResponses.ExtraKeysIgnored | public/ai/classes/aiactions/responses/response_generate_image.php:62-77 | Keys other than the four change neither the data nor whether the set succeeds. |
| AiResponses.ProjectedIdempotent | public/ai/classes/aiactions/responses/response_generate_image.php:62-77 | Setting the data one got back gives the same data. |
| AiResponses.ProjectedFits | public/ai/classes/aiactions/responses/response_generate_image.php:29-36 | Data from a well-typed array fit the typed properties. |
| AiResponses.ResponseGenerateImage.constructor | public/ai/classes/aiactions/responses/response_generate_image.php:30-59 | The action name is "generate_image", the base fields are as given, and the three own fields start out null. |
| AiResponses.ResponseGenerateImage.GetResponseData | public/ai/classes/aiactions/responses/response_generate_image.php:70-77 | The getter returns exactly the four keys, each with its field's value. |
| AiResponses.ResponseGenerateImage.GetThenSetStable | public/ai/classes/aiactions/responses/response_generate_image.php:62-77 | The getter's data, handed back to the setter, are accepted and reproduced. |
| AiResponses.ResponseGenerateImage.SetResponseData | public/ai/classes/aiactions/responses/response_generate_image.php:62-67 | A successful set makes the getter return the array's four entries, so nothing from an earlier set survives. A wrongly typed entry raises a TypeError at its property. The properties before it are assigned, and those from it on are unchanged. |
| AiErrors.NewRateLimit | public/ai/classes/error/ratelimit.php:33-52 | The code handed to the base class is always 429. The message is kept, and the source defaults to "internal". |
| AiErrors.MessageShownUnlessMinimalUpstream | public/ai/classes/error/ratelimit.php:55-60 | The message comes through exactly when the type is detailed or the source is not upstream. |
| AiErrors.DefaultSourceShowsMessage | public/ai/classes/error/ratelimit.php:49-60 | An error built without a source shows its message, provided "internal" is not the upstream source. |
| AiErrors.DecimalText | public/ai/classes/error/ratelimit.php:65 | The integer-to-string conversion of the code gives only decimal digits. |
| AiErrors.DecimalRoundTrip | public/ai/classes/error/ratelimit.php:65 | Reading those digits back gives the number. |
| AiErrors.ErrorCodeText | public/ai/classes/error/ratelimit.php:33-65 | The code 429 is written "429". |
| AiErrors.DetailedPrefixesMinimal | public/ai/classes/error/ratelimit.php:63-69 | For any error, the detailed text is the minimal text preceded by the error's code and ": ". |
| AiErrors.DetailedIsCodeThenMinimal | public/ai/classes/error/ratelimit.php:63-69 | The detailed text is "429: " followed by the minimal text. |
| AiErrors.ErrorIgnoresMessageAndSource | public/ai/classes/error/ratelimit.php:63-69 | get_error depends on neither the message nor the source. |

## Left out

- `backup_helper::check_and_create_backup_dir`, `is_sqlparam` and `get_inforef_itemnames`. The first calls make_backup_temp_directory and throws cannot_create_backup_temp_dir when that yields no directory. The model's make_backup_temp_directory always yields the entry under the backup id, so that exception cannot arise here. The other two return constant arrays.
- `make_backup_temp_directory`, `remove_dir`, `get_directory_list` and the file-storage API are not part of this model.
  - make_backup_temp_directory: the entry under the backup id afterwards, created as an empty directory when missing. An existing entry is kept as it is, even a plain file. delete_dir_contents then returns true for it without touching it, because it is not a directory (backup_helper.class.php:93-98), and rmdir fails on it.
  - remove_dir and rmdir: they remove an emptied directory unless its path is in the rmdir fault set.
  - get_directory_list: a listing of names of root entries, each at most once. It may leave entries out, such as hidden names.
  - The file-storage API: a map from address to stored file.
- File-system detail: chmod and umask, symlinks, and the order readdir returns entries in. The model lists entries in the order the tree holds them. A failed chmod never stops the code: the one in the automated copy is silenced with `@`, and those in delete_dir_contents only raise a warning.
- TempJanitor.DeleteDirContents takes the directory tree as a value and returns the new one. Aliasing between paths and in-place change of a shared file system are not modelled. Modification times are not updated by deletions.
- PHP's loose `!=` between an entry name and the excluded name is plain string inequality. Numeric strings that PHP would compare as numbers are not modelled.
- Progress reporting, mtrace and cli_heading output, and get_string translations. The localised upstreamless text and the description of a code are parameters.
- The S3 object metadata (course id and title, site hash, backup id, type, mode, date). It is descriptive only and never read back.
- Option parsing in the CLI script (cli_get_params and unrecognised options), the backup controller's plan execution and the default file name. The file name and whether a file was produced are inputs.
- The SQL of the cleanup task (get_records_select and get_in_or_equal). The select with its LIMIT returns exactly min(old rows, 131072) old ids, chosen by the database, so the model picks any set of old ids of that size.
- LogCleanup.LogStore.Execute reads the clock as a sequence of readings. The first fixes the cutoff and the second the start. The task's mtrace output is not modelled.
- Concurrent jobs publishing to the same address, or sweeping a directory still in use.
- AiErrors: the base error class is not part of this model. Its upstream-source constant is a parameter, and so is the message type.
- AiResponses: the base response class is not part of this model. Its `model` property is taken to accept any value. PHP's coercion of numbers and booleans into a `?string` property is not modelled.
- HelperLog: `(array)$a` on an object, which would give its properties, is not modelled. `$a` is nothing, a text or a list of texts.
- BackupStore.Storage.StoreBackupFile: unlink of the temp archive is assumed to succeed. The unlinks after an only-external copy and after the store report failure by returning false, and the script goes on. The best-effort `@unlink` in the catch block ignores failure on purpose. The model removes the archive in all three places, so its promise that the archive is gone afterwards (except on import) holds only when those unlinks work. StoreInPool, RouteArchive and StoreAttempt make the same assumption.
- BackupCli.CliWorld.Run: the stored file is tracked as present or deleted. Its content-store address is not modelled.
