/**
 * How backup_helper::store_backup_file_s3 takes an "s3://bucket/folder"
 * destination apart into the bucket and the key prefix of the uploaded object.
 */
module S3Destination {
  import opened Results
  import opened PhpStrings

  /** Where the object goes: the bucket and the prefix put before the file name. */
  datatype S3Target = S3Target(bucket: string, prefix: string)

  /** The only way parsing fails: the bucket segment is empty (or "0"). */
  datatype ParseError = EmptyBucket

  /** Everything after the first "//" (the scheme is dropped). */
  function BucketPath(url: string): string {
    AfterFirst(url, "//")
  }

  /** Everything in the bucket path before its first "/". */
  function BucketName(bucketpath: string): string {
    BeforeFirst(bucketpath, "/")
  }

  /**
   * The key prefix: the text after the first "/" of the bucket path with its
   * trailing slashes removed, and one "/" put back unless the result is empty
   * in PHP's sense, so a folder written "0" keeps no slash.
   */
  function KeyPrefix(bucketpath: string): string {
    if !Contains(bucketpath, "/") then ""
    else
      AsPrefix(RTrim(AfterFirst(bucketpath, "/"), '/'))
  }

  /** One "/" after a folder name, unless the name is empty in PHP's sense. */
  function AsPrefix(folder: string): string {
    if IsEmpty(folder) then folder else folder + "/"
  }

  /** The bucket and prefix of an s3:// destination, or the misconfiguration error. */
  function ParseS3Url(url: string): Result<S3Target, ParseError> {
    var path := BucketPath(url);
    var bucket := BucketName(path);
    if IsEmpty(bucket) then Failure(EmptyBucket)
    else Success(S3Target(bucket, KeyPrefix(path)))
  }

  /** The object key: the prefix, then the file name. */
  function ObjectKey(target: S3Target, filename: string): string {
    target.prefix + filename
  }

  /** The folder part of the bucket path with its trailing slashes removed. */
  function FolderText(bucketpath: string): string {
    if Contains(bucketpath, "/") then RTrim(AfterFirst(bucketpath, "/"), '/') else ""
  }

  /** A prefix as a folder name: empty, PHP's "0", or ending in exactly one "/". */
  predicate NormalizedPrefix(p: string) {
    p == "" || p == "0" || (|p| >= 2 && p[|p| - 1] == '/' && p[|p| - 2] != '/')
  }

  /**
   * A successful parse names a bucket that is not empty in PHP's sense and holds
   * no "/", which is exactly what stands between "//" and the next "/"; the
   * prefix is normalized and agrees with the folder text once trailing slashes go.
   */
  lemma ParseS3UrlSound(url: string)
    requires ParseS3Url(url).Success?
    ensures var t := ParseS3Url(url).value;
      && !IsEmpty(t.bucket)
      && !Contains(t.bucket, "/")
      && NormalizedPrefix(t.prefix)
      && RTrim(t.prefix, '/') == FolderText(BucketPath(url))
      && (BucketPath(url) == t.bucket || BucketPath(url) == t.bucket + "/" + AfterFirst(BucketPath(url), "/"))
  {
    var path := BucketPath(url);
    var t := ParseS3Url(url).value;
    if Contains(path, "/") {
      SplitAtFirst(path, "/");
      var folder := RTrim(AfterFirst(path, "/"), '/');
      if !IsEmpty(folder) {
        RTrimAppended(folder);
      }
    } else {
      assert RTrim("", '/') == "";
    }
  }

  /** Trimming a slash-free-ending text with one "/" appended gives the text back. */
  lemma RTrimAppended(folder: string)
    requires folder != [] && folder[|folder| - 1] != '/'
    ensures RTrim(folder + "/", '/') == folder
  {
    assert (folder + "/")[..|folder|] == folder;
  }

  /** After an "s3://" scheme, the bucket path is everything that follows it. */
  lemma SchemeStripped(rest: string)
    ensures BucketPath("s3://" + rest) == rest
  {
    var url := "s3://" + rest;
    assert OccursAt(url, "//", 3);
    forall j: nat | j < 3
      ensures !OccursAt(url, "//", j)
    {
      assert url[j..j + 2][0] == url[j];
    }
  }

  /** With its first "/" at k, a bucket path splits into bucket and folder there. */
  lemma SplitBucketPath(path: string, k: nat)
    requires k < |path| && path[k] == '/'
    requires forall i :: 0 <= i < k ==> path[i] != '/'
    ensures BucketName(path) == path[..k]
    ensures KeyPrefix(path) == AsPrefix(RTrim(path[k + 1..], '/'))
  {
    FindCharAt(path, '/', k);
  }
}

/** The destination grammar worked through on concrete destinations. */
module S3DestinationExamples {
  import opened Results
  import opened PhpStrings
  import opened S3Destination

  /**
   * An s3:// destination whose bucket path has its first "/" at k: the bucket
   * is the text up to that "/", the prefix comes from the text after it.
   */
  lemma ParseWithFolder(url: string, k: nat)
    requires |url| >= 5 && url[..5] == "s3://"
    requires 5 + k < |url| && url[5 + k] == '/'
    requires forall i :: 5 <= i < 5 + k ==> url[i] != '/'
    ensures BucketPath(url) == url[5..]
    ensures BucketName(url[5..]) == url[5..5 + k]
    ensures KeyPrefix(url[5..]) == AsPrefix(RTrim(url[6 + k..], '/'))
  {
    var path := url[5..];
    assert path[k + 1..] == url[6 + k..];
    assert path[..k] == url[5..5 + k];
    assert "s3://" + path == url;
    SchemeStripped(path);
    SplitBucketPath(path, k);
  }

  /** "s3://bucket" names the bucket and no prefix. */
  lemma ExampleBucketOnly(url: string)
    requires url == "s3://bucket"
    ensures ParseS3Url(url) == Success(S3Target("bucket", ""))
  {
    SchemeStripped("bucket");
    assert "s3://" + "bucket" == url;
    assert BucketPath(url) == "bucket";
    FindCharAbsent("bucket", '/');
    assert BucketName("bucket") == "bucket";
    assert KeyPrefix("bucket") == "";
  }

  /** "s3://bucket/a/b/" gives the prefix "a/b/". */
  lemma ExampleTrailingSlash(url: string)
    requires url == "s3://bucket/a/b/"
    ensures ParseS3Url(url) == Success(S3Target("bucket", "a/b/"))
  {
    assert url[5..11] == "bucket";
    assert url[12..] == "a/b/";
    ParseWithFolder(url, 6);
    TrimmedFolder(url[12..]);
  }

  /** The folder "a/b/" loses its trailing slash and gets it back as a prefix. */
  lemma TrimmedFolder(folder: string)
    requires folder == "a/b/"
    ensures AsPrefix(RTrim(folder, '/')) == "a/b/"
  {
    var r := RTrim(folder, '/');
    assert folder[2] != '/';
    assert |r| == 3;
    assert r == "a/b";
  }

  /** The folder "foo/bar" has nothing to trim and gets one "/". */
  lemma UntrimmedFolder(folder: string)
    requires folder == "foo/bar"
    ensures AsPrefix(RTrim(folder, '/')) == "foo/bar/"
  {
    assert RTrim(folder, '/') == folder;
  }

  /** "s3://bucket/foo/bar" gives the prefix "foo/bar/". */
  lemma ExampleNoTrailingSlash(url: string)
    requires url == "s3://bucket/foo/bar"
    ensures ParseS3Url(url) == Success(S3Target("bucket", "foo/bar/"))
  {
    assert url[5..11] == "bucket";
    assert url[12..] == "foo/bar";
    ParseWithFolder(url, 6);
    UntrimmedFolder(url[12..]);
  }

  /** A bare "s3://" has an empty bucket and is rejected. */
  lemma ExampleNoBucket(url: string)
    requires url == "s3://"
    ensures ParseS3Url(url) == Failure(EmptyBucket)
  {
    SchemeStripped("");
    assert "s3://" + "" == url;
    assert BucketPath(url) == "";
    FindCharAbsent("", '/');
    assert BucketName("") == "";
  }

  /** A bucket written "0" is empty to PHP and is rejected. */
  lemma ExampleZeroBucket(url: string)
    requires url == "s3://0/backups"
    ensures ParseS3Url(url) == Failure(EmptyBucket)
  {
    assert url[5..6] == "0";
    ParseWithFolder(url, 1);
  }

  /** A folder written "0" is empty to PHP, so it gets no "/" and is glued to the file name. */
  lemma ExampleZeroFolder(url: string, filename: string)
    requires url == "s3://bucket/0"
    ensures ParseS3Url(url) == Success(S3Target("bucket", "0"))
    ensures ObjectKey(ParseS3Url(url).value, filename) == "0" + filename
  {
    assert url[5..11] == "bucket";
    assert url[12..] == "0";
    ParseWithFolder(url, 6);
    assert RTrim(url[12..], '/') == "0";
  }
}
