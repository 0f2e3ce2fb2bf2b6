/** The records of the QR registry and the pure logic that the store applies
    to its ordered collection of them: membership of a short code, finding the
    first record with a code, counting one scan, and the newest-first listing. */
module Records {

  import opened Wrappers

  /** One registered QR code as it is persisted. Timestamps are the instants
      the ISO-8601 strings denote, in milliseconds since the epoch. */
  datatype QrRecord = QrRecord(
    id: string,
    originalUrl: string,
    shortCode: string,
    trackedUrl: string,
    qrImageDataUrl: string,
    scanCount: Option<int>,   // None when the persisted record has no scanCount
    createdAt: int,
    updatedAt: Option<int>)   // None until the first scan

  /** The count a record holds, reading a missing or zero count as 0. */
  function ScanValue(r: QrRecord): (n: int)
    ensures r.scanCount.None? ==> n == 0
    ensures r.scanCount.Some? ==> n == r.scanCount.value
  {
    match r.scanCount
    case None => 0
    case Some(n) => n
  }

  /** Some record carries the short code. */
  predicate HasCode(records: seq<QrRecord>, code: string) {
    exists i :: 0 <= i < |records| && records[i].shortCode == code
  }

  /** `some(q => q.shortCode === code)`: the code is among the codes of the stored records. */
  lemma HasCodeIsMembership(records: seq<QrRecord>, code: string)
    ensures HasCode(records, code) <==> code in (set r | r in records :: r.shortCode)
  {
    if code in (set r | r in records :: r.shortCode) {
      var r :| r in records && r.shortCode == code;
      var i :| 0 <= i < |records| && records[i] == r;
    }
  }

  /** No two records share a short code. */
  predicate UniqueCodes(records: seq<QrRecord>) {
    forall i, j :: 0 <= i < j < |records| ==> records[i].shortCode != records[j].shortCode
  }

  /** The index of the first record with the short code, or -1 when there is none. */
  function FindIndex(records: seq<QrRecord>, code: string): (i: int)
    ensures -1 <= i < |records|
    ensures i == -1 <==> !HasCode(records, code)
    ensures 0 <= i ==> records[i].shortCode == code
    ensures 0 <= i ==> forall j :: 0 <= j < i ==> records[j].shortCode != code
    decreases |records|
  {
    if |records| == 0 then -1
    else if records[0].shortCode == code then 0
    else
      var k := FindIndex(records[1..], code);
      if k < 0 then -1 else k + 1
  }

  /** The record after one scan: its count one higher and its update time set. */
  function Scanned(r: QrRecord, now: int): (s: QrRecord)
    ensures SameButScan(r, s)
    ensures ScanValue(s) == ScanValue(r) + 1 && s.updatedAt == Some(now)
  {
    r.(scanCount := Some(ScanValue(r) + 1), updatedAt := Some(now))
  }

  /** Every field other than scanCount and updatedAt is the same. */
  predicate SameButScan(a: QrRecord, b: QrRecord) {
    a.id == b.id && a.originalUrl == b.originalUrl && a.shortCode == b.shortCode &&
    a.trackedUrl == b.trackedUrl && a.qrImageDataUrl == b.qrImageDataUrl && a.createdAt == b.createdAt
  }

  /** One scan of the code: the record returned (None when no record has the
      code) and the collection afterwards. */
  function ApplyScan(records: seq<QrRecord>, code: string, now: int): (out: (Option<QrRecord>, seq<QrRecord>))
    ensures |out.1| == |records|
    ensures !HasCode(records, code) ==> out.0 == None && out.1 == records
    ensures HasCode(records, code) ==>
      var i := FindIndex(records, code);
      && out.0 == Some(out.1[i])
      && out.1[i].scanCount == Some(ScanValue(records[i]) + 1)
      && out.1[i].updatedAt == Some(now)
      && SameButScan(records[i], out.1[i])
      && (forall j :: 0 <= j < |records| && j != i ==> out.1[j] == records[j])
  {
    var i := FindIndex(records, code);
    if i < 0 then (None, records)
    else
      var updated := Scanned(records[i], now);
      (Some(updated), records[i := updated])
  }

  /** A scan leaves every short code where it was. */
  lemma ScanKeepsCodes(records: seq<QrRecord>, code: string, now: int)
    ensures var after := ApplyScan(records, code, now).1;
      forall j :: 0 <= j < |records| ==> after[j].shortCode == records[j].shortCode
  {
  }

  /** A scan finds the same record again afterwards, and keeps the codes unique. */
  lemma {:induction false} ScanKeepsIndex(records: seq<QrRecord>, code: string, now: int)
    ensures FindIndex(ApplyScan(records, code, now).1, code) == FindIndex(records, code)
    ensures UniqueCodes(records) ==> UniqueCodes(ApplyScan(records, code, now).1)
  {
    var after := ApplyScan(records, code, now).1;
    ScanKeepsCodes(records, code, now);
    var i := FindIndex(records, code);
    if i >= 0 {
      assert after[i].shortCode == code;
      assert HasCode(after, code);
    } else {
      assert after == records;
    }
  }

  /** Several scans of one code in a row, at the given instants: the records
      each call returned and the collection afterwards. */
  function ScanTimes(records: seq<QrRecord>, code: string, nows: seq<int>): (out: (seq<Option<QrRecord>>, seq<QrRecord>))
    ensures |out.0| == |nows| && |out.1| == |records|
    decreases |nows|
  {
    if nows == [] then ([], records)
    else
      var step := ApplyScan(records, code, nows[0]);
      var rest := ScanTimes(step.1, code, nows[1..]);
      ([step.0] + rest.0, rest.1)
  }

  /** N scans of a stored code raise its record's count by exactly N, each call
      returns a count one higher than the call before, and nothing but that
      record's scanCount and updatedAt changes. */
  lemma {:induction false} RepeatedScans(records: seq<QrRecord>, code: string, nows: seq<int>)
    requires HasCode(records, code)
    ensures var (returned, after) := ScanTimes(records, code, nows);
      var i := FindIndex(records, code);
      && |after| == |records|
      && FindIndex(after, code) == i
      && ScanValue(after[i]) == ScanValue(records[i]) + |nows|
      && SameButScan(records[i], after[i])
      && (forall j :: 0 <= j < |records| && j != i ==> after[j] == records[j])
      && (forall k :: 0 <= k < |nows| ==>
            returned[k].Some? && SameButScan(records[i], returned[k].value) &&
            ScanValue(returned[k].value) == ScanValue(records[i]) + k + 1)
      && (forall k :: 0 < k < |nows| ==> ScanValue(returned[k - 1].value) < ScanValue(returned[k].value))
    decreases |nows|
  {
    if nows != [] {
      var step := ApplyScan(records, code, nows[0]);
      var i := FindIndex(records, code);
      ScanKeepsIndex(records, code, nows[0]);
      assert HasCode(step.1, code);
      RepeatedScans(step.1, code, nows[1..]);
      var rest := ScanTimes(step.1, code, nows[1..]);
      var returned := ScanTimes(records, code, nows).0;
      assert returned == [step.0] + rest.0;
      forall k | 0 < k < |nows|
        ensures returned[k].Some? && SameButScan(records[i], returned[k].value)
        ensures ScanValue(returned[k].value) == ScanValue(records[i]) + k + 1
      {
        assert returned[k] == rest.0[k - 1];
      }
    }
  }

  /** Scanning, N times in a row, the code of a record just appended with a
      fresh code finds that record at the end each time. */
  lemma ScansOfAppended(records: seq<QrRecord>, r: QrRecord, nows: seq<int>)
    requires !HasCode(records, r.shortCode)
    ensures var stored := records + [r];
      var (returned, after) := ScanTimes(stored, r.shortCode, nows);
      && FindIndex(stored, r.shortCode) == |records|
      && ScanValue(after[|records|]) == ScanValue(r) + |nows|
      && forall k :: 0 <= k < |nows| ==>
           returned[k].Some? && returned[k].value.originalUrl == r.originalUrl &&
           ScanValue(returned[k].value) == ScanValue(r) + k + 1
  {
    var stored := records + [r];
    assert stored[|records|] == r;
    RepeatedScans(stored, r.shortCode, nows);
  }

  /** Appending a record whose code the collection lacks keeps the codes unique. */
  lemma AppendFreshKeepsUnique(records: seq<QrRecord>, r: QrRecord)
    requires UniqueCodes(records) && !HasCode(records, r.shortCode)
    ensures UniqueCodes(records + [r])
    ensures HasCode(records + [r], r.shortCode)
  {
    var after := records + [r];
    assert after[|records|] == r;
    forall i, j | 0 <= i < j < |after|
      ensures after[i].shortCode != after[j].shortCode
    {
      if j == |records| {
        assert after[i] == records[i];
      }
    }
  }

  /** Appending does no duplicate check: a record appended after one with the
      same code leaves two records with that code. */
  lemma AppendDuplicateBreaksUnique(r: QrRecord)
    ensures UniqueCodes([r]) && !UniqueCodes([r] + [r])
  {
    assert ([r] + [r])[0].shortCode == ([r] + [r])[1].shortCode;
  }

  // ---------------------------------------------------------------------------
  // Listing: a stable sort by createdAt, newest first.

  /** Ordered by createdAt, newest first. */
  predicate NewestFirst(s: seq<QrRecord>) {
    forall i, j :: 0 <= i < j < |s| ==> s[i].createdAt >= s[j].createdAt
  }

  /** The records of s created at instant t, in the order s holds them. */
  function CreatedAt(s: seq<QrRecord>, t: int): seq<QrRecord>
    decreases |s|
  {
    if s == [] then []
    else (if s[0].createdAt == t then [s[0]] else []) + CreatedAt(s[1..], t)
  }

  /** Places x before the first record that is not newer than x. */
  function Insert(x: QrRecord, s: seq<QrRecord>): (r: seq<QrRecord>)
    ensures NewestFirst(s) ==> NewestFirst(r)
    ensures multiset(r) == multiset(s) + multiset{x}
    ensures |r| == |s| + 1 && (r[0] == x || (s != [] && r[0] == s[0]))
    decreases |s|
  {
    if s == [] || x.createdAt >= s[0].createdAt then
      PrependNewest(x, s);
      [x] + s
    else
      var rest := Insert(x, s[1..]);
      assert NewestFirst(s) ==> NewestFirst(s[1..]) && rest[0].createdAt <= s[0].createdAt;
      assert multiset(s) == multiset{s[0]} + multiset(s[1..]) by {
        assert s == [s[0]] + s[1..];
      }
      PrependNewest(s[0], rest);
      [s[0]] + rest
  }

  /** A record no older than the first of a newest-first sequence can go in front of it. */
  lemma PrependNewest(h: QrRecord, s: seq<QrRecord>)
    ensures NewestFirst(s) && (s == [] || h.createdAt >= s[0].createdAt) ==> NewestFirst([h] + s)
  {
    if NewestFirst(s) && (s == [] || h.createdAt >= s[0].createdAt) {
      var r := [h] + s;
      forall i, j | 0 <= i < j < |r|
        ensures r[i].createdAt >= r[j].createdAt
      {
        if i == 0 {
          assert r[j] == s[j - 1];
          assert s[0].createdAt >= s[j - 1].createdAt;
        } else {
          assert r[i] == s[i - 1] && r[j] == s[j - 1];
        }
      }
    }
  }

  /** The listing order: records sorted by createdAt, newest first; records
      created at the same instant keep the order in which they were stored. */
  function SortNewestFirst(s: seq<QrRecord>): (r: seq<QrRecord>)
    ensures NewestFirst(r)
    ensures multiset(r) == multiset(s)
    decreases |s|
  {
    if s == [] then []
    else
      assert multiset(s) == multiset{s[0]} + multiset(s[1..]) by {
        assert s == [s[0]] + s[1..];
      }
      Insert(s[0], SortNewestFirst(s[1..]))
  }

  /** Selecting the records of one instant from a record followed by others. */
  lemma CreatedAtCons(x: QrRecord, s: seq<QrRecord>, t: int)
    ensures CreatedAt([x] + s, t) == (if x.createdAt == t then [x] else []) + CreatedAt(s, t)
  {
    assert ([x] + s)[1..] == s;
  }

  /** Selecting the records of one instant distributes over concatenation. */
  lemma {:induction false} CreatedAtAppend(a: seq<QrRecord>, b: seq<QrRecord>, t: int)
    ensures CreatedAt(a + b, t) == CreatedAt(a, t) + CreatedAt(b, t)
    decreases |a|
  {
    if a == [] {
      assert a + b == b;
    } else {
      var head := if a[0].createdAt == t then [a[0]] else [];
      assert (a + b)[0] == a[0];
      assert (a + b)[1..] == a[1..] + b;
      assert CreatedAt(a + b, t) == head + CreatedAt(a[1..] + b, t);
      CreatedAtAppend(a[1..], b, t);
      assert CreatedAt(a, t) == head + CreatedAt(a[1..], t);
    }
  }

  /** Inserting x keeps the records of each instant in the order they would
      have with x in front. */
  lemma {:induction false} InsertKeepsTies(x: QrRecord, s: seq<QrRecord>, t: int)
    ensures CreatedAt(Insert(x, s), t) == CreatedAt([x] + s, t)
    decreases |s|
  {
    if s != [] && x.createdAt < s[0].createdAt {
      var s1 := s[1..];
      var inserted := Insert(x, s1);
      InsertKeepsTies(x, s1, t);
      assert Insert(x, s) == [s[0]] + inserted;
      assert s == [s[0]] + s1;
      CreatedAtCons(s[0], inserted, t);
      CreatedAtCons(x, s1, t);
      CreatedAtCons(s[0], s1, t);
      CreatedAtCons(x, s, t);
      var here := if s[0].createdAt == t then [s[0]] else [];
      var mine := if x.createdAt == t then [x] else [];
      var older := CreatedAt(s1, t);
      if here == [] {
        assert here + (mine + older) == mine + older;
        assert here + older == older;
      } else {
        assert mine == [];
        assert mine + older == older;
        assert mine + (here + older) == here + older;
      }
    }
  }

  /** The listing is stable: the records created at any one instant appear in
      it in the order the store holds them. */
  lemma {:induction false} SortKeepsTies(s: seq<QrRecord>, t: int)
    ensures CreatedAt(SortNewestFirst(s), t) == CreatedAt(s, t)
    decreases |s|
  {
    if s != [] {
      SortKeepsTies(s[1..], t);
      InsertKeepsTies(s[0], SortNewestFirst(s[1..]), t);
      CreatedAtAppend([s[0]], SortNewestFirst(s[1..]), t);
      CreatedAtAppend([s[0]], s[1..], t);
      assert s == [s[0]] + s[1..];
    }
  }

  /** Two records created at distinct instants list newer first. */
  lemma ListingOfTwo(b: QrRecord, c: QrRecord)
    requires b.createdAt < c.createdAt
    ensures SortNewestFirst([b, c]) == [c, b]
  {
    assert [b, c][1..] == [c];
    assert [c][1..] == [];
    assert SortNewestFirst([c]) == Insert(c, []) == [c];
    assert Insert(b, [c]) == [c] + Insert(b, []);
  }

  /** Records stored oldest first, at distinct instants t1 < t2 < t3, list
      as [t3, t2, t1]. */
  lemma ListingOfThree(a: QrRecord, b: QrRecord, c: QrRecord)
    requires a.createdAt < b.createdAt < c.createdAt
    ensures SortNewestFirst([a, b, c]) == [c, b, a]
  {
    assert [a, b, c][1..] == [b, c];
    ListingOfTwo(b, c);
    assert [c, b][1..] == [b];
    assert [b][1..] == [];
    assert Insert(a, [b]) == [b] + Insert(a, []);
    assert Insert(a, [c, b]) == [c] + Insert(a, [b]);
  }
}
