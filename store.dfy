/** The registry store: one JSON file holding an array of records, read whole
    and rewritten whole by every operation. The file is modelled by what it
    holds; reading and writing it are assignments to the `file` field. */
module Store {
  import opened Wrappers
  import opened Records

  /** What the store file holds. */
  datatype StoreFile =
    | Missing                          // no file yet
    | Unparseable                      // text that is not JSON
    | NotAnArray                       // JSON, but not an array
    | Saved(records: seq<QrRecord>)    // a JSON array of records

  /** The records a read of the file yields: an unreadable or non-array file reads as none. */
  function Contents(f: StoreFile): (records: seq<QrRecord>)
    ensures f.Saved? ==> records == f.records
    ensures !f.Saved? ==> records == []
  {
    if f.Saved? then f.records else []
  }

  class QrStore {
    var file: StoreFile

    constructor (initial: StoreFile)
      ensures file == initial
    {
      file := initial;
    }

    /** Creates the file holding an empty array when there is none. */
    method EnsureStoreFile()
      modifies this
      ensures file == if old(file).Missing? then Saved([]) else old(file)
    {
      if file.Missing? {
        file := Saved([]);
      }
    }

    /** Returns the stored records; a file that does not hold an array is
        reset to the empty array and reads as no records. */
    method ReadAll() returns (records: seq<QrRecord>)
      modifies this
      ensures records == Contents(old(file))
      ensures file == Saved(records)
      ensures old(file).Saved? ==> file == old(file)
    {
      EnsureStoreFile();
      if file.Saved? {
        records := file.records;
      } else {
        file := Saved([]);
        records := [];
      }
    }

    /** Replaces the whole collection. */
    method WriteAll(records: seq<QrRecord>)
      modifies this
      ensures file == Saved(records)
    {
      EnsureStoreFile();
      file := Saved(records);
    }

    /** All records, newest first; records created at the same instant keep
        their stored order. */
    method ListQrs() returns (listed: seq<QrRecord>)
      modifies this
      ensures listed == SortNewestFirst(Contents(old(file)))
      ensures NewestFirst(listed) && multiset(listed) == multiset(Contents(old(file)))
      ensures file == Saved(Contents(old(file)))
    {
      var records := ReadAll();
      listed := SortNewestFirst(records);
    }

    /** Whether some stored record has the short code. */
    method HasShortCode(code: string) returns (found: bool)
      modifies this
      ensures found == HasCode(Contents(old(file)), code)
      ensures file == Saved(Contents(old(file)))
    {
      var records := ReadAll();
      found := HasCode(records, code);
    }

    /** Appends the record, with no duplicate check, and returns it unchanged. */
    method CreateQr(record: QrRecord) returns (created: QrRecord)
      modifies this
      ensures created == record
      ensures file == Saved(Contents(old(file)) + [record])
    {
      var records := ReadAll();
      records := records + [record];
      WriteAll(records);
      created := record;
    }

    /** Counts one scan of the first record with the short code and returns the
        updated record; returns None, and changes no record, when there is none. */
    method IncrementScanCount(code: string, now: int) returns (updated: Option<QrRecord>)
      modifies this
      ensures (updated, Contents(file)) == ApplyScan(Contents(old(file)), code, now)
      ensures !HasCode(Contents(old(file)), code) ==> updated == None && file == Saved(Contents(old(file)))
      ensures HasCode(Contents(old(file)), code) ==>
        var i := FindIndex(Contents(old(file)), code);
        && updated.Some? && file.Saved?
        && ScanValue(updated.value) == ScanValue(Contents(old(file))[i]) + 1
        && file.records == Contents(old(file))[i := updated.value]
    {
      var records := ReadAll();
      var index := FindIndex(records, code);
      if index < 0 {
        return None;
      }
      var current := records[index];
      var next := Scanned(current, now);
      records := records[index := next];
      WriteAll(records);
      updated := Some(next);
    }
  }
}
