/**
 * The processor: one poll cycle of `process!` over the `directory_list`
 * field, the choice of entries to work on and how each is dispatched, and
 * `work_zip_file`, which turns one zip archive into an upload.
 */
module Processing {
  import opened Base
  import opened Patterns
  import opened Media
  import opened Extraction
  import opened Upload

  /** The two kinds of work an entry is dispatched to. */
  datatype Kind = ZipFile | BlmFile

  /** One task of a poll cycle: the entry it works on and its kind. */
  datatype Task = Task(entry: string, kind: Kind)

  /**
   * The dispatch meant by `send("work_#{match}_file")`: by the extension
   * the leftmost `/\.(zip|blm)/i` match found, in any letter case.
   */
  function Dispatch(name: string): Option<Kind>
  {
    match ArchiveMatch(name)
    case None => None
    case Some(j) => if OccursAt(Lower(name), ".zip", j) then Some(ZipFile) else Some(BlmFile)
  }

  /** An entry is dispatched exactly when its name contains `.zip` or `.blm`, in any case. */
  lemma DispatchIffArchiveName(name: string)
    ensures Dispatch(name).Some? <==> IsArchiveName(name)
  {
    ArchiveMatchIffArchiveName(name);
  }

  /**
   * The kind follows the matched extension: a zip task's name contains
   * `.zip` and a BLM task's name `.blm`, in some letter case, and a name with
   * only one of the two is dispatched to that one.
   */
  lemma {:induction false} DispatchFollowsExtension(name: string)
    ensures Dispatch(name) == Some(ZipFile) ==> ContainsIgnoringCase(name, ".zip")
    ensures Dispatch(name) == Some(BlmFile) ==> ContainsIgnoringCase(name, ".blm")
    ensures ContainsIgnoringCase(name, ".zip") && !ContainsIgnoringCase(name, ".blm") ==> Dispatch(name) == Some(ZipFile)
    ensures ContainsIgnoringCase(name, ".blm") && !ContainsIgnoringCase(name, ".zip") ==> Dispatch(name) == Some(BlmFile)
  {
    ArchiveMatchIffArchiveName(name);
    var lower := Lower(name);
    if ArchiveMatch(name).Some? {
      var j := ArchiveMatch(name).value;
      if OccursAt(lower, ".zip", j) {
        assert Contains(lower, ".zip");
      } else {
        assert OccursAt(lower, ".blm", j);
        assert Contains(lower, ".blm");
      }
    }
  }

  /**
   * The method name `send` receives as written: the whole `MatchData`
   * interpolates as the matched text, dot included.
   */
  function DispatchNameAsWritten(name: string): Option<string>
  {
    match ArchiveMatch(name)
    case None => None
    case Some(j) => Some("work_" + name[j..j + 4] + "_file")
  }

  /**
   * The discrepancy: for every selected entry the name as written has a dot
   * after `work_`, so it is neither `work_zip_file` nor `work_blm_file`, and
   * `send` finds no such method (it also passes no file to work on).
   */
  lemma {:induction false} DispatchNameAsWrittenIsUndefined(name: string)
    requires IsArchiveName(name)
    ensures DispatchNameAsWritten(name).Some?
    ensures DispatchNameAsWritten(name).value != "work_zip_file"
    ensures DispatchNameAsWritten(name).value != "work_blm_file"
  {
    ArchiveMatchIffArchiveName(name);
    var j := ArchiveMatch(name).value;
    assert Lower(name)[j] == '.';
    LowerCharDot(name[j]);
    assert DispatchNameAsWritten(name).value[5] == '.';
  }

  /** The task one entry starts: one when it is dispatched, none otherwise. */
  function EntryTasks(entry: string): seq<Task>
  {
    match Dispatch(entry)
    case None => []
    case Some(kind) => [Task(entry, kind)]
  }

  /** The tasks a changed cycle starts over the listing `walk`, in listing order. */
  function Tasks(walk: seq<string>): seq<Task>
  {
    if walk == [] then [] else EntryTasks(walk[0]) + Tasks(walk[1..])
  }

  /** Selection keeps listing order: the tasks of a concatenation are the concatenated tasks. */
  lemma {:induction false} TasksAppend(a: seq<string>, b: seq<string>)
    ensures Tasks(a + b) == Tasks(a) + Tasks(b)
  {
    if a == [] {
      assert a + b == b;
    } else {
      assert (a + b)[1..] == a[1..] + b;
      TasksAppend(a[1..], b);
    }
  }

  /** A task is started for an entry exactly when the entry is listed and dispatched to that kind. */
  lemma {:induction false} TasksMembership(walk: seq<string>, task: Task)
    ensures task in Tasks(walk) <==> task.entry in walk && Dispatch(task.entry) == Some(task.kind)
  {
    if walk != [] {
      TasksMembership(walk[1..], task);
      assert walk == [walk[0]] + walk[1..];
    }
  }

  /** The tasks of a one-entry listing: one task when the entry matches, none otherwise. */
  lemma TasksSingleton(entry: string)
    ensures Tasks([entry]) == if Dispatch(entry).Some? then [Task(entry, Dispatch(entry).value)] else []
  {
    assert [entry][1..] == [];
    assert Tasks([entry]) == EntryTasks(entry);
  }

  /** An entry contributes its own tasks at its place in the listing. */
  lemma {:induction false} TasksAround(before: seq<string>, entry: string, after: seq<string>)
    ensures Tasks(before + [entry] + after) == Tasks(before) + EntryTasks(entry) + Tasks(after)
  {
    TasksAppend(before + [entry], after);
    TasksAppend(before, [entry]);
    assert [entry][1..] == [];
    assert Tasks([entry]) == EntryTasks(entry);
  }

  /** An entry that starts no task can be dropped from the listing. */
  lemma {:induction false} TasksWithoutEntry(before: seq<string>, entry: string, after: seq<string>)
    requires EntryTasks(entry) == []
    ensures Tasks(before + [entry] + after) == Tasks(before + after)
  {
    TasksAround(before, entry, after);
    TasksAppend(before, after);
    var head, tail := Tasks(before), Tasks(after);
    assert head + [] == head;
  }

  /**
   * Entries that do not match are never selected, and each matching entry
   * starts exactly one task at its place in the listing.
   */
  lemma {:induction false} TasksOfOneEntry(before: seq<string>, entry: string, after: seq<string>)
    ensures Dispatch(entry).None? ==> Tasks(before + [entry] + after) == Tasks(before + after)
    ensures Dispatch(entry).Some? ==>
              Tasks(before + [entry] + after) == Tasks(before) + [Task(entry, Dispatch(entry).value)] + Tasks(after)
  {
    match Dispatch(entry) {
      case None =>
        TasksWithoutEntry(before, entry, after);
      case Some(kind) =>
        TasksAround(before, entry, after);
    }
  }

  /** What the archive library yields for one zip file. */
  datatype RightmoveArchive = RightmoveArchive(branchId: string, timestamp: real, records: seq<Record>)

  /**
   * `work_zip_file`: extract the rows with media from the zip's entries,
   * build the payload, and post it.
   */
  method WorkZipFile(entries: seq<ZipEntry>, archive: RightmoveArchive, url: Option<Url>, network: Request -> Response)
    returns (payload: Payload, upload: Upload)
    ensures payload.rowSet.tag == archive.branchId
    ensures payload.rowSet.timestamp as real <= archive.timestamp < payload.rowSet.timestamp as real + 1.0
    ensures |payload.rowSet.rows| == |archive.records|
    ensures forall i :: 0 <= i < |archive.records| ==>
              IsExtractedRow(archive.records[i], payload.rowSet.rows[i], ZipSource(entries))
    ensures upload == Post(url, payload, network)
  {
    var rows := ExtractRows(archive.records, ZipSource(entries));
    payload := BuildPayload(archive.branchId, archive.timestamp, rows);
    upload := Post(url, payload, network);
  }

  class Processor {
    /** The listing seen at the last changed poll; `nil` before the first poll. */
    var directoryList: Option<seq<string>>
    /** `@options[:url]`. */
    const url: Option<Url>

    constructor (url: Option<Url>)
      ensures directoryList == None && this.url == url
    {
      directoryList := None;
      this.url := url;
    }

    /**
     * One `process!` cycle. `snapshot` is `Dir.entries(path)`, compared with
     * the stored listing; `walk` is the listing `Dir.foreach` then goes
     * through. An equal snapshot changes nothing and starts nothing;
     * otherwise the snapshot is stored first, and one task is started per
     * matching entry of `walk`, in order.
     */
    method Process(snapshot: seq<string>, walk: seq<string>) returns (changed: bool, tasks: seq<Task>)
      modifies this
      ensures changed <==> old(directoryList) != Some(snapshot)
      ensures !changed ==> directoryList == old(directoryList) && tasks == []
      ensures changed ==> directoryList == Some(snapshot) && tasks == Tasks(walk)
    {
      if directoryList == Some(snapshot) {
        return false, [];
      }
      directoryList := Some(snapshot);
      tasks := [];
      var i := 0;
      while i < |walk|
        invariant 0 <= i <= |walk|
        invariant directoryList == Some(snapshot)
        invariant tasks == Tasks(walk[..i])
      {
        var entry := walk[i];
        match Dispatch(entry) {
          case Some(kind) => tasks := tasks + [Task(entry, kind)];
          case None =>
        }
        TasksAppend(walk[..i], [entry]);
        TasksSingleton(entry);
        assert walk[..i + 1] == walk[..i] + [entry];
        i := i + 1;
      }
      assert walk[..|walk|] == walk;
      changed := true;
    }
  }

  /**
   * Two polls over the same listing: the first poll of a new processor
   * always works (the stored listing is `nil`), the second starts nothing.
   */
  method RepollStartsNothing(url: Option<Url>, snapshot: seq<string>, walk: seq<string>)
    returns (first: seq<Task>, second: seq<Task>)
    ensures first == Tasks(walk)
    ensures second == []
  {
    var processor := new Processor(url);
    var changed;
    changed, first := processor.Process(snapshot, walk);
    changed, second := processor.Process(snapshot, walk);
  }
}
