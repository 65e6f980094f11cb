/**
 * backup_helper::store_backup_file: where a finished backup archive ends up
 * (the content store, an external directory, an S3 bucket), and the promise
 * that the temporary archive is gone afterwards unless the backup is an import.
 */
module BackupStore {
  import opened Results
  import opened PhpStrings
  import opened S3Destination

  /**
   * backup::MODE_*: the four modes the routing singles out, and Other for
   * every remaining mode (same site, converted, asynchronous, ...), which
   * the routing treats alike.
   */
  datatype Mode = General | Import | Hub | Automated | Other

  /** backup::TYPE_1ACTIVITY / TYPE_1SECTION / TYPE_1COURSE. */
  datatype BackupType = Activity | Section | Course

  /** The controller details the routing reads: mode, type, user, object id, course id. */
  datatype BackupDetail = BackupDetail(mode: Mode, btype: BackupType, userid: int, id: int, courseid: int)

  /** The plan settings the routing reads: users, anonymize, filename. */
  datatype BackupSettings = BackupSettings(users: bool, anonymize: bool, filename: string)

  /**
   * The context ids that context_module/context_course/context_user::instance()
   * return; an id missing from its map makes instance() throw.
   */
  datatype Contexts = Contexts(modules: map<int, int>, course: map<int, int>, user: map<int, int>)

  /** A content-store address: context, component, file area, item, path, name. */
  datatype Address = Address(contextid: int, component: string, filearea: string, itemid: int,
                             filepath: string, filename: string)

  type Blob = seq<bv8>

  /** A file in the content store: where it is, who owns it, what it holds. */
  datatype StoredFile = StoredFile(address: Address, userid: int, content: Blob)

  /** get_config('backup'): backup_auto_storage and backup_auto_destination. */
  datatype AutoConfig = AutoConfig(storage: int, destination: string)

  /** What putObject does: answer with a status code, or throw. */
  datatype PutResponse = Status(code: int) | Threw

  /** The S3 service as the code sees it: which buckets exist and how putObject answers. */
  datatype S3Gateway = S3Gateway(buckets: set<string>, response: PutResponse)

  /** One putObject request: bucket, key, body. */
  datatype S3Put = S3Put(bucket: string, key: string, body: Blob)

  /** The external directory: is_dir && is_writable, and whether copy() succeeds. */
  datatype ExternalDir = ExternalDir(writableDir: bool, copySucceeds: bool)

  /** The exceptions that can escape store_backup_file, one per distinct cause. */
  datatype StoreError =
    | MissingFilename
    | UnreadableFilepath
    | MissingContext
    | MissingDestination
    | S3Misconfigured
    | S3BucketMissing
    | S3Transport
    | S3UploadFailed
    | InvalidDestination
    | CopyFailed
    | CreateFailed

  /** The file area a backup type gets before the mode adjusts it. */
  function TypeArea(t: BackupType): string {
    match t
    case Activity => "activity"
    case Section => "section"
    case Course => "course"
  }

  /** Hub backups and general backups without user data, or anonymised, go to the user's own area. */
  predicate UserArea(d: BackupDetail, s: BackupSettings) {
    d.mode == Hub || (d.mode == General && (!s.users || s.anonymize))
  }

  /** The context the backup type selects: the module for an activity, else the course. */
  function TypeContext(d: BackupDetail, ctx: Contexts): Option<int> {
    if d.btype == Activity then
      if d.id in ctx.modules then Some(ctx.modules[d.id]) else None
    else
      if d.courseid in ctx.course then Some(ctx.course[d.courseid]) else None
  }

  /**
   * The address table, mode by mode: user-area backups land in the user's
   * context under component "user", area "tohub" (hub) or "backup", item 0;
   * every other backup stays under component "backup" in the context of its
   * type, with area "automated" for automated backups and the type's area
   * otherwise, and item = section id for section backups. The type's context
   * is looked up first whatever the mode, so a missing one throws even when
   * the mode then moves the file to the user's area.
   */
  function FileAddress(d: BackupDetail, s: BackupSettings, ctx: Contexts): Result<Address, StoreError> {
    match TypeContext(d, ctx)
    case None => Failure(MissingContext)
    case Some(typeCtx) =>
      if UserArea(d, s) then
        if d.userid in ctx.user then
          Success(Address(ctx.user[d.userid], "user", if d.mode == Hub then "tohub" else "backup", 0, "/", s.filename))
        else Failure(MissingContext)
      else
        Success(Address(typeCtx, "backup",
                        if d.mode == Automated then "automated" else TypeArea(d.btype),
                        if d.btype == Section then d.id else 0, "/", s.filename))
  }

  /**
   * The switch on the backup type followed by the if/elseif chain on the mode,
   * reassigning context, component, area and item as the code does.
   */
  method ComputeAddress(d: BackupDetail, s: BackupSettings, ctx: Contexts) returns (r: Result<Address, StoreError>)
    ensures r == FileAddress(d, s, ctx)
  {
    var component := "backup";
    var ctxid := 0;
    var filearea := "";
    var itemid := 0;
    match d.btype {
      case Activity =>
        if d.id !in ctx.modules { return Failure(MissingContext); }
        ctxid := ctx.modules[d.id];
        filearea := "activity";
      case Section =>
        if d.courseid !in ctx.course { return Failure(MissingContext); }
        ctxid := ctx.course[d.courseid];
        filearea := "section";
        itemid := d.id;
      case Course =>
        if d.courseid !in ctx.course { return Failure(MissingContext); }
        ctxid := ctx.course[d.courseid];
        filearea := "course";
    }
    if d.mode == Hub {
      if d.userid !in ctx.user { return Failure(MissingContext); }
      ctxid := ctx.user[d.userid];
      component := "user";
      filearea := "tohub";
      itemid := 0;
    } else if d.mode == General && (!s.users || s.anonymize) {
      if d.userid !in ctx.user { return Failure(MissingContext); }
      ctxid := ctx.user[d.userid];
      component := "user";
      filearea := "backup";
      itemid := 0;
    } else if d.mode == Automated {
      filearea := "automated";
    }
    r := Success(Address(ctxid, component, filearea, itemid, "/", s.filename));
  }

  /** Backups that go to a user's area never share an address with any that stay in the backup component. */
  lemma UserAndCourseAreasDisjoint(d1: BackupDetail, s1: BackupSettings, d2: BackupDetail, s2: BackupSettings, ctx: Contexts)
    requires FileAddress(d1, s1, ctx).Success? && FileAddress(d2, s2, ctx).Success?
    requires UserArea(d1, s1) && !UserArea(d2, s2)
    ensures FileAddress(d1, s1, ctx).value != FileAddress(d2, s2, ctx).value
  {
  }

  /** Only section backups kept in the backup component carry a non-zero item id. */
  lemma NonZeroItemOnlyForSections(d: BackupDetail, s: BackupSettings, ctx: Contexts)
    requires FileAddress(d, s, ctx).Success?
    ensures FileAddress(d, s, ctx).value.itemid != 0 ==> d.btype == Section && !UserArea(d, s)
    ensures FileAddress(d, s, ctx).value.component == (if UserArea(d, s) then "user" else "backup")
  {
  }

  /** The users and anonymise settings move a backup only in GENERAL mode. */
  lemma SettingsMatterOnlyForGeneral(d: BackupDetail, s1: BackupSettings, s2: BackupSettings, ctx: Contexts)
    requires d.mode != General && s1.filename == s2.filename
    ensures FileAddress(d, s1, ctx) == FileAddress(d, s2, ctx)
  {
  }

  /**
   * A backup in any mode the chain does not name keeps the defaults: the
   * context of its type, component "backup", the type's area, whatever its
   * users and anonymise settings.
   */
  lemma OtherModesKeepTypeArea(d: BackupDetail, s: BackupSettings, ctx: Contexts)
    requires d.mode == Other && TypeContext(d, ctx).Some?
    ensures FileAddress(d, s, ctx).Success?
    ensures var a := FileAddress(d, s, ctx).value;
      && a.contextid == TypeContext(d, ctx).value
      && a.component == "backup"
      && a.filearea == TypeArea(d.btype)
      && a.filename == s.filename
  {
  }

  /**
   * What store_backup_file_s3 throws for this destination and service, if
   * anything: a misconfigured url, a missing bucket, a failed or non-200 upload.
   */
  function S3Failure(url: string, s3: S3Gateway): Option<StoreError> {
    match ParseS3Url(url)
    case Failure(_) => Some(S3Misconfigured)
    case Success(t) =>
      if t.bucket !in s3.buckets then Some(S3BucketMissing)
      else match s3.response
        case Threw => Some(S3Transport)
        case Status(code) => if code != 200 then Some(S3UploadFailed) else None
  }

  /** Whether the copy to the configured external destination throws, and what. */
  function ExternalFailure(config: AutoConfig, s3: S3Gateway, ext: ExternalDir): Option<StoreError> {
    if IsEmpty(config.destination) then Some(MissingDestination)
    else if StartsWithIgnoringCase(config.destination, "s3://") then S3Failure(config.destination, s3)
    else if !ext.writableDir then Some(InvalidDestination)
    else if !ext.copySucceeds then Some(CopyFailed)
    else None
  }

  /** A non-import backup with a filename, a readable archive and its contexts reaches the routing stage. */
  predicate Routed(d: BackupDetail, s: BackupSettings, ctx: Contexts, readable: bool) {
    d.mode != Import && !IsEmpty(s.filename) && readable && FileAddress(d, s, ctx).Success?
  }

  /** An automated backup with storage switched on first goes to the external destination. */
  predicate GoesExternal(d: BackupDetail, s: BackupSettings, ctx: Contexts, readable: bool, config: AutoConfig) {
    Routed(d, s, ctx, readable) && d.mode == Automated && config.storage != 0
  }

  /** An external destination that is an S3 url naming an existing bucket: putObject is sent. */
  predicate ReachesS3(config: AutoConfig, s3: S3Gateway) {
    && !IsEmpty(config.destination)
    && StartsWithIgnoringCase(config.destination, "s3://")
    && ParseS3Url(config.destination).Success?
    && ParseS3Url(config.destination).value.bucket in s3.buckets
  }

  /** An external destination that is a writable directory where copy() succeeds. */
  predicate ReachesDirectory(config: AutoConfig, ext: ExternalDir) {
    && !IsEmpty(config.destination)
    && !StartsWithIgnoringCase(config.destination, "s3://")
    && ext.writableDir && ext.copySucceeds
  }

  /** The putObject request for an archive sent to the configured S3 destination. */
  function S3Request(config: AutoConfig, s3: S3Gateway, filename: string, body: Blob): S3Put
    requires ReachesS3(config, s3)
  {
    var t := ParseS3Url(config.destination).value;
    S3Put(t.bucket, ObjectKey(t, filename), body)
  }

  /** The external copy went to S3 (and putObject was sent). */
  predicate SentToS3(d: BackupDetail, s: BackupSettings, ctx: Contexts, readable: bool, config: AutoConfig, s3: S3Gateway) {
    GoesExternal(d, s, ctx, readable, config) && ReachesS3(config, s3)
  }

  /** The external copy went to the directory and copy() wrote the file. */
  predicate CopiedToDirectory(d: BackupDetail, s: BackupSettings, ctx: Contexts, readable: bool, config: AutoConfig, ext: ExternalDir) {
    GoesExternal(d, s, ctx, readable, config) && ReachesDirectory(config, ext)
  }

  /**
   * The exception store_backup_file ends with, in the order the code checks:
   * filename, readability, contexts, the external copy, then the store itself.
   * An automated backup whose external copy is the only one stops before the store.
   */
  function ExpectedFailure(d: BackupDetail, s: BackupSettings, ctx: Contexts, readable: bool,
                           config: AutoConfig, s3: S3Gateway, ext: ExternalDir, createFails: bool): Option<StoreError>
  {
    if d.mode == Import then None
    else if IsEmpty(s.filename) then Some(MissingFilename)
    else if !readable then Some(UnreadableFilepath)
    else if FileAddress(d, s, ctx).Failure? then Some(MissingContext)
    else RoutingFailure(d, config, s3, ext, createFails)
  }

  /**
   * The exception a routed backup ends with: the external copy's, unless the
   * external copy is the only one, then the store's.
   */
  function RoutingFailure(d: BackupDetail, config: AutoConfig, s3: S3Gateway, ext: ExternalDir, createFails: bool): Option<StoreError> {
    if d.mode == Automated && config.storage != 0 && ExternalFailure(config, s3, ext).Some? then ExternalFailure(config, s3, ext)
    else if d.mode == Automated && config.storage == 1 then None
    else if createFails then Some(CreateFailed)
    else None
  }

  /**
   * The world store_backup_file acts on: the temporary archive (if it still
   * exists), the content store, the external directory, and the putObject
   * requests sent to S3.
   */
  class Storage {
    var temp: Option<Blob>
    var files: map<Address, StoredFile>
    var externalDir: map<string, Blob>
    var s3Requests: seq<S3Put>

    constructor (archive: Blob, files: map<Address, StoredFile>, externalDir: map<string, Blob>)
      ensures temp == Some(archive) && this.files == files && this.externalDir == externalDir && s3Requests == []
    {
      temp := Some(archive);
      this.files := files;
      this.externalDir := externalDir;
      s3Requests := [];
    }

    /**
     * store_backup_file_s3: parse the destination, check the bucket, send the
     * archive under prefix + filename, and throw unless the status is 200.
     */
    method StoreBackupFileS3(body: Blob, targetname: string, url: string, s3: S3Gateway) returns (err: Option<StoreError>)
      modifies this`s3Requests
      ensures err == S3Failure(url, s3)
      ensures s3Requests == if ParseS3Url(url).Success? && ParseS3Url(url).value.bucket in s3.buckets
        then old(s3Requests) + [S3Put(ParseS3Url(url).value.bucket, ObjectKey(ParseS3Url(url).value, targetname), body)]
        else old(s3Requests)
    {
      var parsed := ParseS3Url(url);
      if parsed.Failure? {
        return Some(S3Misconfigured);
      }
      var target := parsed.value;
      if target.bucket !in s3.buckets {
        return Some(S3BucketMissing);
      }
      s3Requests := s3Requests + [S3Put(target.bucket, ObjectKey(target, targetname), body)];
      match s3.response {
        case Threw => err := Some(S3Transport);
        case Status(code) => err := if code != 200 then Some(S3UploadFailed) else None;
      }
    }

    /**
     * The copy of an automated backup to backup_auto_destination: S3 when the
     * destination starts with "s3://" in any case, else a writable directory.
     */
    method CopyExternal(archive: Blob, filename: string, config: AutoConfig, s3: S3Gateway, ext: ExternalDir)
      returns (err: Option<StoreError>)
      modifies this`externalDir, this`s3Requests
      ensures err == ExternalFailure(config, s3, ext)
      ensures externalDir == if ReachesDirectory(config, ext) then old(externalDir)[filename := archive] else old(externalDir)
      ensures s3Requests == if ReachesS3(config, s3)
        then old(s3Requests) + [S3Request(config, s3, filename, archive)] else old(s3Requests)
    {
      if IsEmpty(config.destination) {
        return Some(MissingDestination);
      }
      if StartsWithIgnoringCase(config.destination, "s3://") {
        err := StoreBackupFileS3(archive, filename, config.destination, s3);
      } else if !ext.writableDir {
        err := Some(InvalidDestination);
      } else if !ext.copySucceeds {
        err := Some(CopyFailed);
      } else {
        externalDir := externalDir[filename := archive];
        err := None;
      }
    }

    /**
     * The content-store step: delete any file already at the address, create
     * the new one, then remove the temporary archive.
     */
    method StoreInPool(addr: Address, userid: int, archive: Blob, createFails: bool)
      returns (r: Result<StoredFile, StoreError>)
      modifies this`files, this`temp
      ensures r.Failure? <==> createFails
      ensures r.Failure? ==> r.error == CreateFailed && temp == old(temp) && files == old(files) - {addr}
      ensures r.Success? ==>
        && r.value == StoredFile(addr, userid, archive)
        && temp == None
        && files == old(files)[addr := r.value]
    {
      if addr in files {
        files := files - {addr};
      }
      if createFails {
        return Failure(CreateFailed);
      }
      var stored := StoredFile(addr, userid, archive);
      files := files[addr := stored];
      temp := None;
      r := Success(stored);
    }

    /**
     * The rest of the try block once the checks passed and the file's place
     * is known: the external copy of an automated backup, then the store.
     */
    method RouteArchive(d: BackupDetail, s: BackupSettings, config: AutoConfig, s3: S3Gateway, ext: ExternalDir,
                        createFails: bool, address: Address)
      returns (r: Result<Option<StoredFile>, StoreError>)
      requires temp.Some?
      modifies this
      ensures r.Failure? <==> RoutingFailure(d, config, s3, ext, createFails).Some?
      ensures r.Failure? ==> r.error == RoutingFailure(d, config, s3, ext, createFails).value
      ensures r.Failure? ==> temp == old(temp)
      ensures r.Success? ==> temp == None
      ensures r.Success? && r.value.Some? ==>
        && r.value.value == StoredFile(address, d.userid, old(temp).value)
        && files == old(files)[address := r.value.value]
      ensures r.Success? && r.value.None? ==> d.mode == Automated && config.storage == 1 && files == old(files)
      ensures r.Failure? && r.error == CreateFailed ==> files == old(files) - {address}
      ensures r.Failure? && r.error != CreateFailed ==> files == old(files)
      ensures externalDir == if d.mode == Automated && config.storage != 0 && ReachesDirectory(config, ext)
        then old(externalDir)[s.filename := old(temp).value] else old(externalDir)
      ensures s3Requests == if d.mode == Automated && config.storage != 0 && ReachesS3(config, s3)
        then old(s3Requests) + [S3Request(config, s3, s.filename, old(temp).value)] else old(s3Requests)
    {
      var archive := temp.value;
      if d.mode == Automated && config.storage != 0 {
        var err := CopyExternal(archive, s.filename, config, s3, ext);
        if err.Some? {
          return Failure(err.value);
        }
        if config.storage == 1 {
          temp := None;
          return Success(None);
        }
      }
      var stored := StoreInPool(address, d.userid, archive, createFails);
      if stored.Failure? {
        return Failure(stored.error);
      }
      r := Success(Some(stored.value));
    }

    /** The body of the try block: everything store_backup_file does before any catch. */
    method StoreAttempt(d: BackupDetail, s: BackupSettings, ctx: Contexts, readable: bool,
                        config: AutoConfig, s3: S3Gateway, ext: ExternalDir, createFails: bool)
      returns (r: Result<Option<StoredFile>, StoreError>)
      requires readable ==> temp.Some?
      modifies this
      ensures d.mode == Import ==> r == Success(None) && unchanged(this)
      ensures r.Failure? <==> ExpectedFailure(d, s, ctx, readable, config, s3, ext, createFails).Some?
      ensures r.Failure? ==> r.error == ExpectedFailure(d, s, ctx, readable, config, s3, ext, createFails).value
      ensures r.Failure? ==> temp == old(temp)
      ensures d.mode != Import && r.Success? ==> temp == None
      ensures r.Success? && r.value.Some? ==>
        && Routed(d, s, ctx, readable)
        && r.value.value == StoredFile(FileAddress(d, s, ctx).value, d.userid, old(temp).value)
        && files == old(files)[r.value.value.address := r.value.value]
      ensures r.Success? && r.value.None? ==>
        && (d.mode == Import || (GoesExternal(d, s, ctx, readable, config) && config.storage == 1))
        && files == old(files)
      ensures r.Failure? && r.error == CreateFailed ==>
        Routed(d, s, ctx, readable) && files == old(files) - {FileAddress(d, s, ctx).value}
      ensures r.Failure? && r.error != CreateFailed ==> files == old(files)
      ensures externalDir == if CopiedToDirectory(d, s, ctx, readable, config, ext)
        then old(externalDir)[s.filename := old(temp).value] else old(externalDir)
      ensures s3Requests == if SentToS3(d, s, ctx, readable, config, s3)
        then old(s3Requests) + [S3Request(config, s3, s.filename, old(temp).value)] else old(s3Requests)
    {
      if d.mode == Import {
        return Success(None);
      }
      if IsEmpty(s.filename) {
        return Failure(MissingFilename);
      }
      if !readable {
        return Failure(UnreadableFilepath);
      }
      var address := ComputeAddress(d, s, ctx);
      if address.Failure? {
        return Failure(address.error);
      }
      r := RouteArchive(d, s, config, s3, ext, createFails, address.value);
    }

    /**
     * store_backup_file: the try block, and a catch that removes the temporary
     * archive if it is still there and re-throws the same exception.
     */
    method StoreBackupFile(d: BackupDetail, s: BackupSettings, ctx: Contexts, readable: bool,
                           config: AutoConfig, s3: S3Gateway, ext: ExternalDir, createFails: bool)
      returns (r: Result<Option<StoredFile>, StoreError>)
      requires readable ==> temp.Some?
      modifies this
      ensures d.mode == Import ==> r == Success(None) && unchanged(this)
      ensures d.mode != Import ==> temp == None
      ensures r.Failure? <==> ExpectedFailure(d, s, ctx, readable, config, s3, ext, createFails).Some?
      ensures r.Failure? ==> r.error == ExpectedFailure(d, s, ctx, readable, config, s3, ext, createFails).value
      ensures r.Success? && r.value.Some? ==>
        && Routed(d, s, ctx, readable)
        && r.value.value == StoredFile(FileAddress(d, s, ctx).value, d.userid, old(temp).value)
        && files == old(files)[r.value.value.address := r.value.value]
      ensures r.Success? && r.value.None? ==>
        && (d.mode == Import || (GoesExternal(d, s, ctx, readable, config) && config.storage == 1))
        && files == old(files)
      ensures r.Failure? && r.error == CreateFailed ==>
        Routed(d, s, ctx, readable) && files == old(files) - {FileAddress(d, s, ctx).value}
      ensures r.Failure? && r.error != CreateFailed ==> files == old(files)
      ensures externalDir == if CopiedToDirectory(d, s, ctx, readable, config, ext)
        then old(externalDir)[s.filename := old(temp).value] else old(externalDir)
      ensures s3Requests == if SentToS3(d, s, ctx, readable, config, s3)
        then old(s3Requests) + [S3Request(config, s3, s.filename, old(temp).value)] else old(s3Requests)
    {
      r := StoreAttempt(d, s, ctx, readable, config, s3, ext, createFails);
      if r.Failure? {
        if temp.Some? {
          temp := None;
        }
      }
    }
  }
}
