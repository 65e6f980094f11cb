/**
 * admin/cli/backup.php: back up one course as the site admin and optionally
 * send the archive to a local directory or an S3 bucket.
 */
module BackupCli {
  import opened Results
  import opened PhpStrings
  import opened S3Destination

  type Blob = seq<bv8>

  /** The options the script reads (values as cli_get_params gives them, "" when absent). */
  datatype CliOptions = CliOptions(courseid: string, courseshortname: string, destination: string, help: bool)

  /** The three destination shapes the script tells apart. */
  datatype Destination = NoDestination | S3Bucket(s3path: string, bucket: string) | LocalDir(dir: string)

  /** What putObject does: answer with a status code, or throw. */
  datatype PutResponse = Status(code: int) | Threw

  /**
   * Everything the script learns from outside: the admin account, the course
   * records, whether the local destination exists and is a writable
   * directory, the existing buckets, the file the backup produces (if any),
   * its filename, and how opening the file, the upload and the copy go.
   */
  datatype CliEnv = CliEnv(
    admin: Option<int>,
    coursesById: map<string, int>,
    coursesByShortname: map<string, int>,
    dirUsable: bool,
    buckets: set<string>,
    produced: Option<Blob>,
    filename: string,
    handleFails: bool,
    response: PutResponse,
    copySucceeds: bool)

  /** A backup the script ran: type, course id, mode, user. */
  datatype BackupRequest = BackupRequest(btype: string, courseid: int, mode: string, userid: int)

  /** One putObject request: bucket, key, body. */
  datatype Upload = Upload(bucket: string, key: string, body: Blob)

  /** Why the script stopped with die. */
  datatype Stop = ShowedHelp | NoAdmin | InvalidDestination | UnusableDirectory | UploadThrew

  /** An error the script does not catch. */
  datatype Fault = CourseMissing | NoBackupFile

  /** What the script reported when it reached exit(0). */
  datatype Report =
    | UploadSucceeded
    | UploadFailed(status: int)
    | CopiedToDestination
    | LeftInCourseArea
    | NoFileToCopy
    | StoredInCourseArea

  datatype Ending = Died(why: Stop) | Crashed(fault: Fault) | Finished(report: Report)

  /**
   * The destination after rtrim of "/": empty in PHP's sense means none, an
   * "s3://" start in any case means a bucket (the text after the first "//",
   * up to its first "/"), anything else a local directory.
   */
  function Classify(destination: string): (r: Destination) {
    var d := RTrim(destination, '/');
    if IsEmpty(d) then NoDestination
    else if StartsWithIgnoringCase(d, "s3://") then
      var s3path := AfterFirst(d, "//");
      S3Bucket(s3path, BeforeFirst(s3path, "/"))
    else LocalDir(d)
  }

  /** The folder: the text after the first "/" of the bucket path, right-trimmed of "/". */
  function CliFolder(s3path: string): string {
    if !Contains(s3path, "/") then "" else RTrim(AfterFirst(s3path, "/"), '/')
  }

  /** The object key: folder + "/" + filename, or the bare filename when the folder is empty in PHP's sense. */
  function CliS3Key(s3path: string, filename: string): string {
    var folder := CliFolder(s3path);
    (if IsEmpty(folder) then "" else folder + "/") + filename
  }

  /** Where the script dies before running any backup, if it does. */
  function Validation(opts: CliOptions, env: CliEnv): Option<Stop> {
    if opts.help || (IsEmpty(opts.courseid) && IsEmpty(opts.courseshortname)) then Some(ShowedHelp)
    else if env.admin.None? then Some(NoAdmin)
    else match Classify(opts.destination)
      case NoDestination => None
      case S3Bucket(_, bucket) =>
        if IsEmpty(bucket) || bucket !in env.buckets then Some(InvalidDestination) else None
      case LocalDir(_) => if env.dirUsable then None else Some(UnusableDirectory)
  }

  /** The course the options name: by id when one is given, else by short name. */
  function CourseOf(opts: CliOptions, env: CliEnv): Option<int> {
    if !IsEmpty(opts.courseid) then
      if opts.courseid in env.coursesById then Some(env.coursesById[opts.courseid]) else None
    else if opts.courseshortname in env.coursesByShortname then Some(env.coursesByShortname[opts.courseshortname])
    else None
  }

  /** Validation passed and the course exists: the backup runs. */
  predicate Reached(opts: CliOptions, env: CliEnv) {
    Validation(opts, env).None? && CourseOf(opts, env).Some?
  }

  /** The backup ran with a bucket destination and a file, and the file handle opened: putObject is sent. */
  predicate UploadSent(opts: CliOptions, env: CliEnv) {
    Reached(opts, env) && Classify(opts.destination).S3Bucket? && env.produced.Some? && !env.handleFails
  }

  /** The backup ran with a local destination and a file, and copy_content_to succeeded. */
  predicate CopiedLocally(opts: CliOptions, env: CliEnv) {
    Reached(opts, env) && Classify(opts.destination).LocalDir? && env.produced.Some? && env.copySucceeds
  }

  /** How the script ends. */
  function ExpectedEnding(opts: CliOptions, env: CliEnv): Ending {
    if Validation(opts, env).Some? then Died(Validation(opts, env).value)
    else if CourseOf(opts, env).None? then Crashed(CourseMissing)
    else match Classify(opts.destination)
      case S3Bucket(_, _) =>
        if env.produced.None? then Crashed(NoBackupFile)
        else if env.handleFails then Died(UploadThrew)
        else (match env.response
              case Threw => Died(UploadThrew)
              case Status(code) => Finished(if code == 200 then UploadSucceeded else UploadFailed(code)))
      case LocalDir(_) =>
        if env.produced.None? then Finished(NoFileToCopy)
        else Finished(if env.copySucceeds then CopiedToDestination else LeftInCourseArea)
      case NoDestination => Finished(StoredInCourseArea)
  }

  /** Trailing slashes never change how a destination is read. */
  lemma TrailingSlashIgnored(destination: string)
    ensures Classify(destination + "/") == Classify(destination)
  {
    assert (destination + "/")[..|destination|] == destination;
  }

  /** A destination made only of slashes is no destination at all: the backup stays in the course area. */
  lemma SlashesOnlyIsNoDestination(destination: string)
    requires forall i :: 0 <= i < |destination| ==> destination[i] == '/'
    ensures Classify(destination) == NoDestination
  {
  }

  /** "0" (with any trailing slashes) is empty to PHP, so it is no destination either. */
  lemma ZeroIsNoDestination(destination: string)
    requires |destination| >= 1 && destination[0] == '0'
    requires forall i :: 1 <= i < |destination| ==> destination[i] == '/'
    ensures Classify(destination) == NoDestination
  {
    var d := RTrim(destination, '/');
    assert d != [] ==> d[|d| - 1] == destination[|d| - 1];
    assert |d| == 1;
    assert d == "0";
  }

  /**
   * A bare "s3://" loses its slashes to rtrim first, and "s3:" no longer
   * starts with "s3://", so it is checked as a local directory.
   */
  lemma SchemeAloneIsLocal(destination: string)
    requires destination == "s3://"
    ensures Classify(destination) == LocalDir("s3:")
  {
    assert destination[..|destination| - 1] == "s3:/";
    assert "s3:/"[..3] == "s3:";
    assert RTrim("s3:", '/') == "s3:";
  }

  /**
   * The bucket the script checks is the one store_backup_file_s3 would parse
   * from the same (trimmed) destination.
   */
  lemma CliBucketMatchesHelper(destination: string)
    requires Classify(destination).S3Bucket? && !IsEmpty(Classify(destination).bucket)
    ensures ParseS3Url(RTrim(destination, '/')) ==
      Success(S3Target(Classify(destination).bucket, KeyPrefix(Classify(destination).s3path)))
  {
  }

  /**
   * The script's object key is the key store_backup_file_s3 builds from the
   * same bucket path, unless the folder is literally "0".
   */
  lemma CliKeyMatchesHelper(s3path: string, filename: string)
    requires CliFolder(s3path) != "0"
    ensures CliS3Key(s3path, filename) == KeyPrefix(s3path) + filename
  {
  }

  /**
   * A folder written "0" is dropped by the script, which uploads under the
   * bare filename, while store_backup_file_s3 glues it to the filename.
   */
  lemma ZeroFolderDisagrees(s3path: string, filename: string)
    requires CliFolder(s3path) == "0"
    ensures CliS3Key(s3path, filename) == filename
    ensures KeyPrefix(s3path) + filename == "0" + filename
  {
  }

  /**
   * The world the script changes: the backups run, the file in the course
   * backup area, the files written to local directories, the putObject
   * requests sent, and whether a file handle is open.
   */
  class CliWorld {
    var runs: seq<BackupRequest>
    var areaFile: Option<Blob>
    var localFiles: map<string, Blob>
    var uploads: seq<Upload>
    var handleOpen: bool

    constructor ()
      ensures runs == [] && areaFile == None && localFiles == map[] && uploads == [] && !handleOpen
    {
      runs := [];
      areaFile := None;
      localFiles := map[];
      uploads := [];
      handleOpen := false;
    }

    /** The validation stage: options, admin, then the trimmed destination. */
    method Validate(opts: CliOptions, env: CliEnv) returns (stop: Option<Stop>, dest: Destination)
      ensures stop == Validation(opts, env)
      ensures stop.None? ==> dest == Classify(opts.destination)
    {
      if opts.help || (IsEmpty(opts.courseid) && IsEmpty(opts.courseshortname)) {
        return Some(ShowedHelp), NoDestination;
      }
      if env.admin.None? {
        return Some(NoAdmin), NoDestination;
      }
      var destination := RTrim(opts.destination, '/');
      dest := NoDestination;
      stop := None;
      if !IsEmpty(destination) {
        if StartsWithIgnoringCase(destination, "s3://") {
          var s3path := AfterFirst(destination, "//");
          var s3bucket := BeforeFirst(s3path, "/");
          dest := S3Bucket(s3path, s3bucket);
          if IsEmpty(s3bucket) || s3bucket !in env.buckets {
            stop := Some(InvalidDestination);
          }
        } else {
          dest := LocalDir(destination);
          if !env.dirUsable {
            stop := Some(UnusableDirectory);
          }
        }
      }
    }

    /**
     * The S3 branch: open the stored file, send it, close the handle on the
     * way out of both the try block and the catch block.
     */
    method SendToS3(s3path: string, bucket: string, env: CliEnv) returns (ending: Ending)
      requires !handleOpen
      modifies this`uploads, this`handleOpen
      ensures !handleOpen
      ensures ending == (if env.produced.None? then Crashed(NoBackupFile)
        else if env.handleFails then Died(UploadThrew)
        else match env.response
          case Threw => Died(UploadThrew)
          case Status(code) => Finished(if code == 200 then UploadSucceeded else UploadFailed(code)))
      ensures uploads == if env.produced.Some? && !env.handleFails
        then old(uploads) + [Upload(bucket, CliS3Key(s3path, env.filename), env.produced.value)]
        else old(uploads)
    {
      if env.produced.None? {
        return Crashed(NoBackupFile);
      }
      if env.handleFails {
        return Died(UploadThrew);
      }
      handleOpen := true;
      uploads := uploads + [Upload(bucket, CliS3Key(s3path, env.filename), env.produced.value)];
      match env.response {
        case Threw =>
          handleOpen := false;
          return Died(UploadThrew);
        case Status(code) =>
          handleOpen := false;
          return Finished(if code == 200 then UploadSucceeded else UploadFailed(code));
      }
    }

    /**
     * The local-directory branch: copy the stored file there and delete it
     * from the course area only when the copy worked.
     */
    method CopyToDirectory(dir: string, env: CliEnv) returns (ending: Ending)
      requires areaFile == env.produced
      modifies this`localFiles, this`areaFile
      ensures ending == (if env.produced.None? then Finished(NoFileToCopy)
        else Finished(if env.copySucceeds then CopiedToDestination else LeftInCourseArea))
      ensures areaFile == if env.produced.Some? && env.copySucceeds then None else env.produced
      ensures localFiles == if env.produced.Some? && env.copySucceeds
        then old(localFiles)[dir + "/" + env.filename := env.produced.value] else old(localFiles)
    {
      if env.produced.None? {
        return Finished(NoFileToCopy);
      }
      if env.copySucceeds {
        localFiles := localFiles[dir + "/" + env.filename := env.produced.value];
        areaFile := None;
        return Finished(CopiedToDestination);
      }
      return Finished(LeftInCourseArea);
    }

    /**
     * The part of the script after validation and the course lookup: run the
     * backup as the admin, then send the file to the destination.
     */
    method BackUpAndSend(opts: CliOptions, env: CliEnv, course: int, dest: Destination) returns (ending: Ending)
      requires !handleOpen
      requires Reached(opts, env) && CourseOf(opts, env) == Some(course) && dest == Classify(opts.destination)
      modifies this
      ensures ending == ExpectedEnding(opts, env)
      ensures !handleOpen
      ensures runs == old(runs) + [BackupRequest("course", course, "general", env.admin.value)]
      ensures areaFile == if CopiedLocally(opts, env) then None else env.produced
      ensures localFiles == if CopiedLocally(opts, env)
        then old(localFiles)[dest.dir + "/" + env.filename := env.produced.value]
        else old(localFiles)
      ensures uploads == if UploadSent(opts, env)
        then old(uploads) + [Upload(dest.bucket, CliS3Key(dest.s3path, env.filename), env.produced.value)]
        else old(uploads)
    {
      runs := runs + [BackupRequest("course", course, "general", env.admin.value)];
      areaFile := env.produced;
      if dest.S3Bucket? {
        ending := SendToS3(dest.s3path, dest.bucket, env);
      } else if dest.LocalDir? {
        ending := CopyToDirectory(dest.dir, env);
      } else {
        ending := Finished(StoredInCourseArea);
      }
    }

    /** The whole script. */
    method Run(opts: CliOptions, env: CliEnv) returns (ending: Ending)
      requires !handleOpen
      modifies this
      ensures ending == ExpectedEnding(opts, env)
      ensures !handleOpen
      ensures !Reached(opts, env) ==> unchanged(this)
      ensures Reached(opts, env) ==>
        runs == old(runs) + [BackupRequest("course", CourseOf(opts, env).value, "general", env.admin.value)]
      ensures Reached(opts, env) ==> areaFile == if CopiedLocally(opts, env) then None else env.produced
      ensures localFiles == if CopiedLocally(opts, env)
        then old(localFiles)[Classify(opts.destination).dir + "/" + env.filename := env.produced.value]
        else old(localFiles)
      ensures uploads == if UploadSent(opts, env)
        then old(uploads) + [Upload(Classify(opts.destination).bucket,
                                    CliS3Key(Classify(opts.destination).s3path, env.filename), env.produced.value)]
        else old(uploads)
    {
      var stop, dest := Validate(opts, env);
      if stop.Some? {
        return Died(stop.value);
      }
      var course := CourseOf(opts, env);
      if course.None? {
        return Crashed(CourseMissing);
      }
      ending := BackUpAndSend(opts, env, course.value, dest);
    }
  }
}
