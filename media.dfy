/**
 * Media lookup: turning an attribute value that names an image into an
 * upload part, either from the entries of the open zip archive
 * (`instantiate_from_zip_file`) or from a file on disk (`instantiate_from_dir`),
 * and the value that `instantiate_file` wraps the content in.
 */
module Media {
  import opened Base
  import opened Patterns

  /** The value `instantiate_file` gives `file.content_type` when the file has none. */
  const DefaultContentType: string := "image/jpg"

  /**
   * The three arguments `instantiate_file` passes to `Faraday::UploadIO.new`,
   * by position: the file's content, then `file_name`, then
   * `file.content_type`. How the library reads them is not part of this model.
   */
  datatype UploadIo = UploadIo(io: seq<byte>, second: Option<string>, third: Option<string>)

  /** A value of an extracted row: the original string, or a resolved file. */
  datatype Value = Text(text: string) | Media(part: UploadIo)

  /** One entry of a zip archive, in the archive's own entry order. */
  datatype ZipEntry = ZipEntry(name: string, content: seq<byte>)

  /**
   * Where media references are looked up: the entries of the open zip file,
   * or the watched directory together with the files that exist on disk
   * (path to content).
   */
  datatype MediaSource =
    | ZipSource(entries: seq<ZipEntry>)
    | DirectorySource(dir: string, files: map<string, seq<byte>>)

  /** The Ruby classes whose instances `instantiate_file` receives. */
  datatype IoClass = StringIoClass | FileClass

  /**
   * `instantiate_file(file, file_name)` as meant: the file's content, then
   * `file_name`, then `file.content_type` with its default, on every call.
   */
  function Instantiate(content: seq<byte>, fileName: Option<string>): (f: UploadIo)
    ensures f.io == content && f.second == fileName
    ensures f.third == Some(DefaultContentType)
  {
    UploadIo(content, fileName, Some(DefaultContentType))
  }

  /**
   * `instantiate_file` as written. The `class_eval` adds `content_type` to the
   * whole class of `file`, so once one instance of a class has been patched,
   * every later instance already responds to `content_type`, the branch that
   * sets the default is skipped, and the accessor reads `nil`, which is
   * passed on as the third argument. `patched` is the set of classes already
   * extended in this process.
   */
  function InstantiateAsWritten(patched: set<IoClass>, io: IoClass, content: seq<byte>, fileName: Option<string>)
    : (r: (UploadIo, set<IoClass>))
    ensures r.0.io == content && r.0.second == fileName
    ensures r.1 == patched + {io}
    ensures r.0.third == if io in patched then None else Some(DefaultContentType)
  {
    if io in patched then (UploadIo(content, fileName, None), patched)
    else (UploadIo(content, fileName, Some(DefaultContentType)), patched + {io})
  }

  /**
   * The discrepancy: for the second piece of media of the same class in one
   * process, `file.content_type` is `nil`, while `Instantiate` gives both
   * the default.
   */
  lemma SecondInstantiationLosesContentType(io: IoClass, c1: seq<byte>, n1: Option<string>, c2: seq<byte>, n2: Option<string>)
    ensures InstantiateAsWritten({}, io, c1, n1).0.third == Some(DefaultContentType)
    ensures InstantiateAsWritten(InstantiateAsWritten({}, io, c1, n1).1, io, c2, n2).0.third == None
    ensures Instantiate(c2, n2).third == Some(DefaultContentType)
  {
  }

  /**
   * The index of the first entry whose name contains `reference`:
   * `zip_file.entries.select { |v| v.to_s =~ /#{file_name}/ }.first`, with the
   * interpolated pattern read as a literal substring.
   */
  function FirstMatchingEntry(entries: seq<ZipEntry>, reference: string): (r: Option<nat>)
    ensures r.Some? ==> r.value < |entries| && Contains(entries[r.value].name, reference)
    ensures r.Some? ==> forall j :: 0 <= j < r.value ==> !Contains(entries[j].name, reference)
    ensures r.None? ==> forall j :: 0 <= j < |entries| ==> !Contains(entries[j].name, reference)
  {
    if entries == [] then None
    else if Contains(entries[0].name, reference) then Some(0)
    else
      match FirstMatchingEntry(entries[1..], reference)
      case None => None
      case Some(i) => Some(i + 1)
  }

  /**
   * `instantiate_from_zip_file(file_name, zip_file)`: the original string when
   * no entry matches, otherwise the content of the first matching entry,
   * passed on with the reference as `file_name`.
   */
  function ResolveFromZip(reference: string, entries: seq<ZipEntry>): (r: Value)
    ensures (forall j :: 0 <= j < |entries| ==> !Contains(entries[j].name, reference)) <==> r == Text(reference)
    ensures forall i ::
              && 0 <= i < |entries|
              && Contains(entries[i].name, reference)
              && (forall j :: 0 <= j < i ==> !Contains(entries[j].name, reference))
              ==> r == Media(Instantiate(entries[i].content, Some(reference)))
  {
    match FirstMatchingEntry(entries, reference)
    case None => Text(reference)
    case Some(i) => Media(Instantiate(entries[i].content, Some(reference)))
  }

  /** `dir` with its trailing separators removed. */
  function TrimTrailingSeparators(dir: string): (r: string)
    ensures r <= dir
    ensures r == [] || r[|r| - 1] != '/'
    ensures forall i :: |r| <= i < |dir| ==> dir[i] == '/'
  {
    if |dir| > 0 && dir[|dir| - 1] == '/' then TrimTrailingSeparators(dir[..|dir| - 1]) else dir
  }

  /**
   * Ruby's `File.join(a, b)` for two strings: a `/` is inserted when neither
   * side has one at the joint, and when `b` starts with a separator the
   * trailing separators of `a` are dropped.
   */
  function JoinPath(a: string, b: string): (r: string)
    ensures TrimTrailingSeparators(a) <= r
    ensures |b| <= |r| && r[|r| - |b|..] == b
    ensures (|r| - |b| > 0 && r[|r| - |b| - 1] == '/') || (|b| > 0 && b[0] == '/')
  {
    if |b| > 0 && b[0] == '/' then TrimTrailingSeparators(a) + b
    else if |a| > 0 && a[|a| - 1] == '/' then a + b
    else a + "/" + b
  }

  /** The path `instantiate_from_dir` checks, as written: `File.join(file_name, dir)`. */
  function DirPathAsWritten(reference: string, dir: string): string
  {
    JoinPath(reference, dir)
  }

  /** The path meant: the reference inside the watched directory, `File.join(dir, file_name)`. */
  function DirPath(dir: string, reference: string): (path: string)
    ensures TrimTrailingSeparators(dir) <= path
    ensures |reference| <= |path| && path[|path| - |reference|..] == reference
  {
    JoinPath(dir, reference)
  }

  /**
   * The discrepancy on an example: the path as written puts the watched
   * directory after the image name, so the image is never looked up inside
   * the directory.
   */
  lemma DirPathArgumentsReversed()
    ensures DirPathAsWritten("photo.jpg", "/srv/feed") == "photo.jpg/srv/feed"
    ensures DirPath("/srv/feed", "photo.jpg") == "/srv/feed/photo.jpg"
  {
    assert TrimTrailingSeparators("photo.jpg") == "photo.jpg";
  }

  /**
   * The discrepancy for every input: for an absolute watched directory and a
   * relative reference, the path as written starts with the reference's
   * first character, not with `/`, so it is never the path meant.
   */
  lemma {:induction false} DirPathAsWrittenDiffers(reference: string, dir: string)
    requires |reference| > 0 && reference[0] != '/'
    requires |dir| > 0 && dir[0] == '/'
    ensures DirPathAsWritten(reference, dir) != DirPath(dir, reference)
  {
    var trimmed := TrimTrailingSeparators(reference);
    assert |trimmed| > 0;
    assert DirPathAsWritten(reference, dir) == trimmed + dir;
    assert DirPathAsWritten(reference, dir)[0] == reference[0];
    assert DirPath(dir, reference)[0] == '/';
  }

  /**
   * `instantiate_from_dir(file_name, dir)` with the path corrected: the file's
   * content when the path exists (`instantiate_file` gets no `file_name`),
   * and the original string when it does not.
   */
  function ResolveFromDir(reference: string, dir: string, files: map<string, seq<byte>>): (r: Value)
    ensures DirPath(dir, reference) !in files <==> r == Text(reference)
    ensures DirPath(dir, reference) in files ==> r == Media(Instantiate(files[DirPath(dir, reference)], None))
  {
    var path := DirPath(dir, reference);
    if path in files then Media(Instantiate(files[path], None)) else Text(reference)
  }

  /** The resolver of the source the record came from. */
  function Resolve(reference: string, source: MediaSource): Value
  {
    match source
    case ZipSource(entries) => ResolveFromZip(reference, entries)
    case DirectorySource(dir, files) => ResolveFromDir(reference, dir, files)
  }

  /**
   * Resolution never fails: it yields either the original string or a
   * part whose third argument is the default content type.
   */
  lemma ResolveFallsBackOrTypes(reference: string, source: MediaSource)
    ensures Resolve(reference, source) == Text(reference)
         || (Resolve(reference, source).Media? && Resolve(reference, source).part.third == Some(DefaultContentType))
  {
  }
}
