# rightmove_wrangler processor, modelled in Dafny

`RightmoveWrangler::Processor` watches a directory. On every poll it compares
the directory listing with the one it saw last. When the listing changed, it
starts one worker per entry whose name contains `.zip` or `.blm`. What follows
is what the workers are meant to do. As written, every worker raises at once,
because the method it dispatches to does not exist (see Findings). A zip worker
reads the Rightmove archive inside the zip and turns each record into a row.
Any attribute value that names an image is replaced by that image's content,
taken from the zip entries or, for a loose BLM file, from the watched
directory. A zip worker then wraps the rows in a `{row_set: {tag, timestamp,
rows}}` payload and POSTs it to the configured URL. The response status
becomes the worker's output.

For each discrepancy under Findings, the model has two definitions: one that
models the code as written and exhibits the fault, and a corrected one. The
rest of the model uses the corrected ones: `Dispatch`, `Post`, `Instantiate`,
`DirPath` and `WorkBlmFile`.

This model covers the decision logic of that class:

- `patterns.dfy` (module `Patterns`): `IMAGE_REGEX` and `/\.(zip|blm)/i` as
  case-insensitive substring tests, plus the leftmost-match search.
- `media.dfy` (module `Media`): the zip lookup (first matching entry, or the
  original string), the directory lookup (`File.join` plus an existence
  check, or the original string), and the three arguments that
  `instantiate_file` passes to `Faraday::UploadIO.new`.
- `extraction.dfy` (module `Extraction`): the `row_hash` loop over a record's
  attributes and the `collect` over the records, both as methods with loop
  invariants. Also `work_blm_file`.
- `upload.dfy` (module `Upload`): the payload literal and `post!`'s status
  mapping.
- `processor.dfy` (module `Processing`): a `Processor` class with the
  `directory_list` field and the `process!` cycle as a method, the selection
  and dispatch of entries, and `work_zip_file`.
- `base.dfy` (module `Base`): `Option` and `byte`.

Everything outside the class's own code is an input. That covers the directory
listing (`seq<string>`), the zip entries (`seq<ZipEntry>`), the records the
archive library yields, the files on disk (a map from path to content) and the
HTTP server (a function from request to response).

On these points the model follows the code, where one might expect otherwise:

- Listings are compared as Ruby arrays, where order matters, not as sets of
  names.
- The default content type is `"image/jpg"`, not the registered `"image/jpeg"`.
- A part built from a file on disk gets no `file_name` argument, because
  `instantiate_file` is called without one.

Without a URL, `post!` sets a missing-URL output but does not return early, so
it raises (see Findings). `Upload.PostAsWritten` models the code. The corrected
`Upload.Post`, which `WorkZipFile` uses, returns false with the missing-URL
output and sends nothing.

## Model

| member | source | states |
|---|---|---|
| `Patterns.ArchiveMatchFrom` | lib/rightmove_wrangler.rb:77 | the search returns the leftmost index where `.zip` or `.blm` occurs in any letter case; no earlier index matches, and when it returns nothing no index matches |
| `Patterns.ArchiveMatchIffArchiveName` | lib/rightmove_wrangler.rb:77 | `/\.(zip|blm)/i.match(file)` succeeds exactly when the name contains `.zip` or `.blm` case-insensitively |
| `Patterns.ArchiveExtensionAnywhere` | lib/rightmove_wrangler.rb:77 | the entry pattern is unanchored: `.zip`/`.blm` in any case anywhere in a name selects it |
| `Patterns.ImageExtensionAnywhere` | lib/rightmove_wrangler.rb:12 | `IMAGE_REGEX` is unanchored and case-insensitive: `.jpg`, `.jpeg`, `.png` or `.gif` in any case anywhere in a value makes it a media reference |
| `Processing.DispatchIffArchiveName` | lib/rightmove_wrangler.rb:77-80 | an entry gets a kind of work exactly when its name matches `/\.(zip|blm)/i` |
| `Processing.DispatchFollowsExtension` | lib/rightmove_wrangler.rb:77-80 | corrected dispatch: a zip task's name contains `.zip` and a BLM task's name `.blm`, in some letter case; a name containing only one of the two goes to that kind |
| `Processing.DispatchNameAsWrittenIsUndefined` | lib/rightmove_wrangler.rb:80 | for every selected entry, the method name built from the whole match (`work_.zip_file`) is neither `work_zip_file` nor `work_blm_file` |
| `Processing.TasksAppend` | lib/rightmove_wrangler.rb:75-83 | selection keeps listing order: the tasks of `a + b` are the tasks of `a` followed by those of `b` |
| `Processing.TasksMembership` | lib/rightmove_wrangler.rb:75-83 | a task exists for an entry exactly when the entry is listed and dispatched to that kind |
| `Processing.TasksSingleton` | lib/rightmove_wrangler.rb:77-82 | a one-entry listing starts one task when the entry matches and none otherwise |
| `Processing.TasksOfOneEntry` | lib/rightmove_wrangler.rb:75-83 | a non-matching entry never adds a task, though it counts for change detection; a matching entry adds exactly one task, at its place in the listing |
| `Processing.Processor.constructor` | lib/rightmove_wrangler.rb:11-17 | a new processor has no stored listing (`directory_list` is `nil`) and keeps the URL option |
| `Processing.Processor.Process` | lib/rightmove_wrangler.rb:64-83 | an equal listing leaves `directory_list` unchanged and starts nothing; a different one is stored before the loop runs (a loop invariant) and starts one task per matching entry, in listing order |
| `Processing.RepollStartsNothing` | lib/rightmove_wrangler.rb:64-71 | the first poll of a new processor always works; polling the same listing again starts no task |
| `Processing.WorkZipFile` | lib/rightmove_wrangler.rb:109-135 | the payload carries the archive's branch id, its whole seconds and one extracted row per record in order; the upload is the corrected `Post` of that payload (as written, `post!` raises without a URL or query) |
| `Extraction.ExtractRow` | lib/rightmove_wrangler.rb:114-123 | the row has the record's keys; non-image values are kept as text, and image values are replaced by the resolver's result |
| `Extraction.ExtractRows` | lib/rightmove_wrangler.rb:113-125 | one row per record, in record order, each extracted from its record |
| `Extraction.ExtractedRowIsUnique` | lib/rightmove_wrangler.rb:113-125 | the extracted row is determined by the record and the media source |
| `Extraction.RecordWithoutMediaPassesThrough` | lib/rightmove_wrangler.rb:116-122 | a record with no media reference comes through value for value as text |
| `Extraction.ExtractedRowIsTextIff` | lib/rightmove_wrangler.rb:98-105 | a row extracted from the directory is the record's strings as text exactly when none of its image values names an existing file |
| `Extraction.BlmRowsAsWrittenMissMedia` | lib/rightmove_wrangler.rb:96-106 | for all records, the rows as written (the attribute maps, which `row.attributes.each` returns) equal the extracted rows exactly when no image value names an existing file in the watched directory |
| `Extraction.BlmRowsKeepMediaNames` | lib/rightmove_wrangler.rb:96-106 | for every record and key whose image value names a file in the watched directory, the row as written still holds the name, while the extracted row holds that file's part |
| `Extraction.WorkBlmFile` | lib/rightmove_wrangler.rb:94-107 | with the block returning `row_hash`, one row per record, with media looked up in the watched directory |
| `Media.Instantiate` | lib/rightmove_wrangler.rb:160-173 | corrected: `UploadIO.new` gets the content, then the `file_name` given, then `file.content_type` defaulted to `image/jpg`, on every call |
| `Media.InstantiateAsWritten` | lib/rightmove_wrangler.rb:160-173 | the class is patched on first use; for a later instance of a patched class, `file.content_type`, the third argument, is `nil` |
| `Media.SecondInstantiationLosesContentType` | lib/rightmove_wrangler.rb:161-170 | the first part of a class gets `image/jpg` as its third argument, the second gets `nil`; the corrected definition gives both `image/jpg` |
| `Media.FirstMatchingEntry` | lib/rightmove_wrangler.rb:149-150 | finds the first entry, in entry order, whose name contains the reference; when it finds none, no entry contains it |
| `Media.ResolveFromZip` | lib/rightmove_wrangler.rb:148-158 | the original string exactly when no entry contains the reference; otherwise the corrected `Instantiate` of the first matching entry's content with the reference as `file_name` |
| `Media.JoinPath` | lib/rightmove_wrangler.rb:138 | `File.join(a, b)` ends with `b`, starts with `a` less its trailing separators, and has a separator at the joint |
| `Media.DirPath` | lib/rightmove_wrangler.rb:138 | the looked-up path starts with the watched directory and ends with the reference |
| `Media.DirPathArgumentsReversed` | lib/rightmove_wrangler.rb:138 | `File.join(file_name, dir)` gives `photo.jpg/srv/feed` where `/srv/feed/photo.jpg` is meant |
| `Media.DirPathAsWrittenDiffers` | lib/rightmove_wrangler.rb:138 | for every relative reference and absolute watched directory, the path as written differs from the corrected `DirPath` |
| `Media.ResolveFromDir` | lib/rightmove_wrangler.rb:137-146 | with the corrected `DirPath` (as written, line 138 joins the other way): the original string exactly when the path does not exist; otherwise the corrected `Instantiate` of that file's content with no `file_name` |
| `Media.ResolveFallsBackOrTypes` | lib/rightmove_wrangler.rb:137-158 | with the corrected `Instantiate`, lookup never fails: the result is the original string or a part whose third argument is `image/jpg` |
| `Upload.BuildPayload` | lib/rightmove_wrangler.rb:127-133 | `row_set` holds the tag, the whole seconds of the timestamp (`to_i`) and the rows unchanged and in order |
| `Upload.Post` | lib/rightmove_wrangler.rb:175-197 | no URL: false with the missing-URL output and no request; otherwise one request to the URL's origin and path with its query values and the payload, true with the success output exactly on status 200, and false with the non-200 output otherwise |
| `Upload.SuccessOutputIffOk` | lib/rightmove_wrangler.rb:191-197 | the output is "Server returned a successful response" exactly when `post!` returns true |
| `Upload.MissingUrlSendsNothing` | lib/rightmove_wrangler.rb:176-178 | without a URL nothing is sent and the result does not depend on the server |
| `Upload.PostAsWritten` | lib/rightmove_wrangler.rb:175-189 | as written: no URL sets the message and then raises; a URL without a query raises before sending; otherwise it behaves as `Post` |
| `Upload.PostAsWrittenCompletesOnlyWithQuery` | lib/rightmove_wrangler.rb:176-189 | as written, `post!` completes exactly when a URL is set and has a query, and then agrees with `Post` |

## Left out

- `run`'s endless loop, `sleep 5`, the `rescue Exception` around `process!` and `exit 1`: these control the process's lifetime, not its decisions.
- `OptionParser`, the help and version banners, and the startup check on the path: command-line plumbing.
- Threads: each started task is an element of the returned sequence. The join loop that prints each thread's output slot is not modelled. Neither is a thread's exception being re-raised by `join`.
- `Dir.entries` and `Dir.foreach` are the parameters `snapshot` and `walk` of `Process`. `Zip::ZipFile`, `Rightmove::Archive` and `BLM` are inputs (`seq<ZipEntry>`, `RightmoveArchive`, records). The model does not relate the archive's records to the zip's bytes.
- `File.exists?` and `File.open` become membership in, and lookup of, a map from path to content.
- Faraday, `Addressable::URI` and the network: the URL is given already split into origin, path and query values, and the server is a function from request to response. Multipart encoding is not modelled.
- Upload.Post: the server always answers. An exception raised by `conn.post` (connection refused, timeout), which propagates out of `post!`, is not modelled.
- Extraction.WorkBlmFile: `work_blm_file` opens `file` relative to the process's working directory, while `work_zip_file` prefixes the watched path. The records are an input here, so the model cannot show that a BLM file found in the watched directory is opened elsewhere.
- Logging to `$stdout` and `$stderr`.
- How `Faraday::UploadIO` treats its arguments: `UploadIo` holds exactly the three values `instantiate_file` passes, by position. Whether the library reads the second as a content type or as a file name is not modelled.
- The order of keys inside a row: Ruby hashes keep insertion order, but rows are Dafny maps.
- Media.FirstMatchingEntry: the reference is interpolated into a regular expression, but the model reads it as a literal substring. So `.` matching any character, other metacharacters, and a reference that is not a valid pattern are not modelled.
- Patterns.ArchiveMatchFrom: case-insensitive matching is ASCII case folding. Unicode case folding under `/i` is not modelled. The same holds for `IMAGE_REGEX` (`Patterns.IsImageValue`, `Patterns.ImageExtensionAnywhere`), which uses the same folding.
- Media.JoinPath: only `/` separators are modelled.
- Upload.BuildPayload: the archive's timestamp is a real number of seconds since the epoch, and `to_i` takes its floor.
- Extraction.WorkBlmFile: like the source, it uploads nothing and leaves no output.
- Payload idempotence needs no lemma: `BuildPayload` is a function, so equal inputs give equal payloads.

## Findings

| source | as written | input that shows it | evidently intended | confidence | as-written member | corrected member |
|---|---|---|---|---|---|---|
| lib/rightmove_wrangler.rb:80 | `send("work_#{match}_file".to_sym)` interpolates the whole match, so the name is `work_.zip_file`. No such method exists, and no file is passed | an entry `a.zip` | call `work_zip_file(file)` or `work_blm_file(file)` by the matched extension | not executed; high | `Processing.DispatchNameAsWrittenIsUndefined` | `Processing.DispatchFollowsExtension` |
| lib/rightmove_wrangler.rb:176-180 | with no URL, the message is set but `post!` carries on. `Addressable::URI.parse(nil)` is `nil`, so `uri.origin` raises | `--url` not given | return false with the missing-URL output and send nothing | not executed; high | `Upload.PostAsWritten` | `Upload.MissingUrlSendsNothing` |
| lib/rightmove_wrangler.rb:188 | `uri.query_values` is `nil` for a URL without a query, so `merge` raises before the POST | `--url http://host/listings` | merge the payload with an empty query | not executed; medium (rests on `query_values` returning `nil`) | `Upload.PostAsWrittenCompletesOnlyWithQuery` | `Upload.Post` |
| lib/rightmove_wrangler.rb:138 | `File.join(file_name, dir)` puts the directory after the image name | `photo.jpg` with the path `/srv/feed` gives `photo.jpg/srv/feed` | `File.join(dir, file_name)`, i.e. `/srv/feed/photo.jpg` | not executed; high | `Media.DirPathAsWrittenDiffers` | `Media.DirPath` |
| lib/rightmove_wrangler.rb:98-105 | the `collect` block ends with `row.attributes.each`, whose value is the attribute map, so `row_hash` is dropped | a record `{"picture" => "a.jpg"}` with `/feed/a.jpg` present | return `row_hash`, as `work_zip_file` does at line 124 | not executed; high | `Extraction.BlmRowsAsWrittenMissMedia` | `Extraction.WorkBlmFile` |
| lib/rightmove_wrangler.rb:161-170 | `class_eval` adds `content_type` to the whole class. A second `StringIO` already responds to it and skips the default, so `file.content_type`, passed as `UploadIO.new`'s third argument, is `nil` | an archive whose records name two images | every part gets `image/jpg` as `file.content_type` | not executed; high | `Media.SecondInstantiationLosesContentType` | `Media.Instantiate` |
