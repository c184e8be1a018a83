/**
 * Row extraction: each record's attribute map becomes a row with the same
 * keys, where every value matching IMAGE_REGEX is replaced by what the media
 * lookup returns and every other value is kept.
 */
module Extraction {
  import opened Base
  import opened Patterns
  import opened Media

  /** `row.attributes`: attribute name to raw value. */
  type Record = map<string, string>

  /** One extracted row, `row_hash`. */
  type Row = map<string, Value>

  /** `row` is what extraction makes of `attributes`. */
  predicate IsExtractedRow(attributes: Record, row: Row, source: MediaSource)
  {
    && row.Keys == attributes.Keys
    && (forall key :: key in attributes && !IsImageValue(attributes[key]) ==> row[key] == Text(attributes[key]))
    && (forall key :: key in attributes && IsImageValue(attributes[key]) ==> row[key] == Resolve(attributes[key], source))
  }

  /** The `row.attributes.each` loop that fills `row_hash`. */
  method ExtractRow(attributes: Record, source: MediaSource) returns (row: Row)
    ensures IsExtractedRow(attributes, row, source)
  {
    row := map[];
    var pending := attributes.Keys;
    while pending != {}
      invariant pending <= attributes.Keys
      invariant row.Keys == attributes.Keys - pending
      invariant forall key :: key in row && !IsImageValue(attributes[key]) ==> row[key] == Text(attributes[key])
      invariant forall key :: key in row && IsImageValue(attributes[key]) ==> row[key] == Resolve(attributes[key], source)
      decreases pending
    {
      var key :| key in pending;
      var value := attributes[key];
      row := row[key := if IsImageValue(value) then Resolve(value, source) else Text(value)];
      pending := pending - {key};
    }
  }

  /** The `collect` over the archive's records: one row per record, in record order. */
  method ExtractRows(records: seq<Record>, source: MediaSource) returns (rows: seq<Row>)
    ensures |rows| == |records|
    ensures forall i :: 0 <= i < |records| ==> IsExtractedRow(records[i], rows[i], source)
  {
    rows := [];
    var i := 0;
    while i < |records|
      invariant 0 <= i <= |records|
      invariant |rows| == i
      invariant forall k :: 0 <= k < i ==> IsExtractedRow(records[k], rows[k], source)
    {
      var row := ExtractRow(records[i], source);
      rows := rows + [row];
      i := i + 1;
    }
  }

  /** Extraction is a function of the record: two extracted rows of it are equal. */
  lemma ExtractedRowIsUnique(attributes: Record, row1: Row, row2: Row, source: MediaSource)
    requires IsExtractedRow(attributes, row1, source) && IsExtractedRow(attributes, row2, source)
    ensures row1 == row2
  {
  }

  /** A record without media references comes through as plain text, value for value. */
  lemma RecordWithoutMediaPassesThrough(attributes: Record, row: Row, source: MediaSource)
    requires forall key :: key in attributes ==> !IsImageValue(attributes[key])
    requires IsExtractedRow(attributes, row, source)
    ensures row == map key | key in attributes :: Text(attributes[key])
  {
  }

  /**
   * The rows of `work_blm_file` as written: the `collect` block's value is
   * that of `row.attributes.each`, which is the attribute map itself, so
   * `row_hash` is discarded and every value stays a string.
   */
  function BlmRowsAsWritten(records: seq<Record>): seq<Record>
  {
    records
  }

  /** A record's values, each kept as text. */
  function AsText(record: Record): Row
  {
    map key | key in record :: Text(record[key])
  }

  /**
   * A row extracted from the directory keeps the record's strings exactly
   * when none of its image values names a file that exists there.
   */
  lemma {:induction false} ExtractedRowIsTextIff(record: Record, row: Row, dir: string, files: map<string, seq<byte>>)
    requires IsExtractedRow(record, row, DirectorySource(dir, files))
    ensures AsText(record) == row <==>
            forall key :: key in record && IsImageValue(record[key]) ==> DirPath(dir, record[key]) !in files
  {
    if forall key :: key in record && IsImageValue(record[key]) ==> DirPath(dir, record[key]) !in files {
      forall key | key in record
        ensures AsText(record)[key] == row[key]
      {
        if IsImageValue(record[key]) {
          assert ResolveFromDir(record[key], dir, files) == Text(record[key]);
        }
      }
    }
    if AsText(record) == row {
      forall key | key in record && IsImageValue(record[key])
        ensures DirPath(dir, record[key]) !in files
      {
        assert row[key] == Text(record[key]);
      }
    }
  }

  /**
   * The discrepancy for every input: the rows of `work_blm_file` as written
   * equal the extracted rows, value for value as text, exactly when no
   * image value of any record names a file in the watched directory;
   * whenever one does, the row as written keeps the name instead of the file.
   */
  lemma {:induction false} BlmRowsAsWrittenMissMedia(records: seq<Record>, rows: seq<Row>, dir: string, files: map<string, seq<byte>>)
    requires |rows| == |records|
    requires forall i :: 0 <= i < |records| ==> IsExtractedRow(records[i], rows[i], DirectorySource(dir, files))
    ensures (forall i :: 0 <= i < |records| ==> AsText(BlmRowsAsWritten(records)[i]) == rows[i]) <==>
            (forall i, key :: 0 <= i < |records| && key in records[i] && IsImageValue(records[i][key]) ==>
               DirPath(dir, records[i][key]) !in files)
  {
    forall i | 0 <= i < |records|
      ensures AsText(records[i]) == rows[i] <==>
              forall key :: key in records[i] && IsImageValue(records[i][key]) ==> DirPath(dir, records[i][key]) !in files
    {
      ExtractedRowIsTextIff(records[i], rows[i], dir, files);
    }
  }

  /**
   * `work_blm_file` with the block returning `row_hash`, as `work_zip_file`
   * does: the records' media references are looked up in the watched
   * directory. Like the source it returns the rows and uploads nothing.
   */
  method WorkBlmFile(records: seq<Record>, dir: string, files: map<string, seq<byte>>) returns (rows: seq<Row>)
    ensures |rows| == |records|
    ensures forall i :: 0 <= i < |records| ==> IsExtractedRow(records[i], rows[i], DirectorySource(dir, files))
  {
    rows := ExtractRows(records, DirectorySource(dir, files));
  }

  /**
   * The discrepancy, value by value: wherever a record names an image that
   * exists in the watched directory, the row as written still holds the
   * name, while the extracted row holds the file.
   */
  lemma BlmRowsKeepMediaNames(records: seq<Record>, rows: seq<Row>, dir: string, files: map<string, seq<byte>>,
                              i: nat, key: string)
    requires |rows| == |records|
    requires forall k :: 0 <= k < |records| ==> IsExtractedRow(records[k], rows[k], DirectorySource(dir, files))
    requires i < |records| && key in records[i] && IsImageValue(records[i][key])
    requires DirPath(dir, records[i][key]) in files
    ensures BlmRowsAsWritten(records)[i][key] == records[i][key]
    ensures key in rows[i]
    ensures rows[i][key] == Media(Instantiate(files[DirPath(dir, records[i][key])], None))
  {
  }
}
