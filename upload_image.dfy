/**
  `uploadImageToSupabase`: the file extension and content type of a picked
  image, the storage path it is uploaded under, and the public URL returned.
  The clock (`Date.now()`), the random suffix
  (`Math.random().toString(16).slice(2)`), the configured base URL and how the
  file read and the storage upload turned out are parameters.
 */
module UploadImage {
  import opened Strings

  const BUCKET := "item-images"
  const PUBLIC_PATH := "/storage/v1/object/public/item-images/"
  const DEFAULT_EXTENSION := "jpg"

  /** `uri.split('.').pop()?.toLowerCase()`: `split` never yields an empty array, so `pop` always has a value. */
  function GetFileExtension(uri: string): (ext: string)
    ensures '.' !in ext
    ensures Lower(ext) == ext
  {
    var raw := Last(Split(uri, '.'));
    LowerKeepsNonLetter(raw, '.');
    LowerIdempotent(raw);
    Lower(raw)
  }

  /** `getFileExtension(uri) || 'jpg'`. */
  function Extension(uri: string): (ext: string)
    ensures ext != "" && '.' !in ext && Lower(ext) == ext
  {
    var ext := GetFileExtension(uri);
    if ext == "" then DEFAULT_EXTENSION else ext
  }

  /** `image/${ext === 'jpg' ? 'jpeg' : ext}`. */
  function ContentType(ext: string): (r: string)
    ensures |r| >= 6 && r[..6] == "image/"
    ensures |r| == 6 <==> ext == ""
  {
    "image/" + (if ext == "jpg" then "jpeg" else ext)
  }

  /** `items/${Date.now()}-${random}.${ext}`. */
  function StoragePath(now: nat, randomHex: string, ext: string): (path: string)
    ensures |path| > |ext| + 6
    ensures path[..6] == "items/"
    ensures path[|path| - |ext| - 1..] == "." + ext
  {
    var prefix := "items/" + NatToString(now) + "-" + randomHex;
    assert prefix[..6] == "items/";
    prefix + "." + ext
  }

  /** `${base}/storage/v1/object/public/item-images/${path}`. */
  function PublicUrl(base: string, path: string): string
  {
    base + PUBLIC_PATH + path
  }

  /** What the outside world contributes to one upload. */
  datatype UploadIo = UploadIo(now: nat, randomHex: string, readFails: bool, storageFails: bool)

  /** What is handed to the storage bucket. */
  datatype StorageRequest = StorageRequest(bucket: string, path: string, contentType: string)

  datatype UploadResult = Uploaded(url: string) | Threw

  function Request(uri: string, io: UploadIo): StorageRequest
  {
    var ext := Extension(uri);
    StorageRequest(BUCKET, StoragePath(io.now, io.randomHex, ext), ContentType(ext))
  }

  /**
    The whole procedure: read the file, upload it, throw on either failure,
    otherwise return the public URL of the stored path.
   */
  function Upload(uri: string, io: UploadIo, base: string): (r: UploadResult)
    ensures r.Uploaded? ==> |r.url| > |base + PUBLIC_PATH| && r.url[..|base + PUBLIC_PATH|] == base + PUBLIC_PATH
  {
    if io.readFails || io.storageFails then Threw
    else Uploaded(PublicUrl(base, Request(uri, io).path))
  }

  // ---- properties ----

  /** With a '.', the extension is the lower-cased text after the last one. */
  lemma ExtensionAfterLastDot(prefix: string, tail: string)
    requires '.' !in tail
    ensures GetFileExtension(prefix + "." + tail) == Lower(tail)
  {
    SplitLast(prefix, '.', tail);
  }

  /** Without a '.', the "extension" is the whole URI, lower-cased. */
  lemma ExtensionWithoutDot(uri: string)
    requires '.' !in uri
    ensures GetFileExtension(uri) == Lower(uri)
  {
    SplitWithoutSeparator(uri, '.');
  }

  /** The extension never contains a '.', is lower case, and `jpg` stands in only for an empty one. */
  lemma ExtensionSpec(uri: string)
    ensures '.' !in Extension(uri)
    ensures Lower(Extension(uri)) == Extension(uri)
    ensures Extension(uri) != ""
    ensures Extension(uri) == DEFAULT_EXTENSION <==> GetFileExtension(uri) in {"", "jpg"}
  {
    var parts := Split(uri, '.');
    LowerKeepsNonLetter(Last(parts), '.');
    LowerIdempotent(Last(parts));
  }

  /** The content type is `image/jpeg` for `jpg` and `image/` + ext otherwise; `jpg` and `jpeg` share it. */
  lemma ContentTypeSpec(ext: string)
    ensures ContentType(ext) == "image/jpeg" <==> ext == "jpg" || ext == "jpeg"
    ensures ext != "jpg" ==> ContentType(ext)[6..] == ext
  {
    if ContentType(ext) == "image/jpeg" && ext != "jpg" {
      assert ContentType(ext)[6..] == ext;
    }
  }

  /** When the only '.' sits in a directory name, the "extension" runs across the '/' after it. */
  lemma ExtensionMaySpanDirectories(directory: string, rest: string)
    requires '.' !in rest && '/' in rest
    ensures '/' in GetFileExtension(directory + "." + rest)
  {
    ExtensionAfterLastDot(directory, rest);
    LowerKeepsNonLetter(rest, '/');
  }

  /**
    The storage path starts with `items/`, ends with `.` + ext, and reading the
    extension back off the path gives the extension that was chosen.
   */
  lemma StoragePathSpec(uri: string, now: nat, randomHex: string)
    ensures var ext := Extension(uri);
            var path := StoragePath(now, randomHex, ext);
            && path[..6] == "items/"
            && path[|path| - |ext| - 1..] == "." + ext
            && GetFileExtension(path) == ext
  {
    var ext := Extension(uri);
    ExtensionSpec(uri);
    var path := StoragePath(now, randomHex, ext);
    var prefix := "items/" + NatToString(now) + "-" + randomHex;
    assert path == prefix + "." + ext;
    assert path[..6] == prefix[..6] == "items/";
    assert path[|path| - |ext| - 1..] == "." + ext;
    ExtensionAfterLastDot(prefix, ext);
  }

  /**
    An upload returns a URL exactly when both the read and the upload succeed;
    that URL names the stored path under the public `items/` folder, and reading
    the extension back off it gives the extension the file was stored with.
   */
  lemma UploadSpec(uri: string, io: UploadIo, base: string)
    ensures Upload(uri, io, base).Uploaded? <==> !io.readFails && !io.storageFails
    ensures Upload(uri, io, base).Uploaded? ==>
              Upload(uri, io, base).url == base + PUBLIC_PATH + Request(uri, io).path
    ensures Upload(uri, io, base).Uploaded? ==>
              var url := Upload(uri, io, base).url;
              && url[..|base + PUBLIC_PATH + "items/"|] == base + PUBLIC_PATH + "items/"
              && GetFileExtension(url) == Extension(uri)
    ensures Request(uri, io).contentType == ContentType(Extension(uri))
  {
    if Upload(uri, io, base).Uploaded? {
      var ext := Extension(uri);
      var prefix := base + PUBLIC_PATH + "items/" + NatToString(io.now) + "-" + io.randomHex;
      assert Upload(uri, io, base).url == prefix + "." + ext;
      assert prefix[..|base + PUBLIC_PATH + "items/"|] == base + PUBLIC_PATH + "items/";
      ExtensionAfterLastDot(prefix, ext);
    }
  }

  /** An upper-case `.JPG` is stored as `jpg` with type `image/jpeg`; a trailing '.' falls back to `jpg`. */
  lemma UploadExamples(name: string, io: UploadIo)
    ensures Extension(name + ".JPG") == "jpg"
    ensures Request(name + ".JPG", io).contentType == "image/jpeg"
    ensures Extension(name + ".") == "jpg"
  {
    var upper := "JPG";
    assert name + ".JPG" == name + "." + upper;
    ExtensionAfterLastDot(name, upper);
    assert Lower(upper) == "jpg";
    var empty := "";
    assert name + "." == name + "." + empty;
    ExtensionAfterLastDot(name, empty);
  }
}
