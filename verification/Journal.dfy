/**
 `Journal::scan`, `inspect` and `record` with their failures, and the readback that picks a
 record by its original effect.  Every file operation may fail; a failed call leaves the
 directory as the last completed operation did, as a killed process would.
 */
module Journal {
  import opened Results
  import opened Native
  import opened Ordering
  import opened Directory
  import opened FileAnswers

  datatype RecordResult = Recorded | Existing

  /** Which file operation of an append fails, if any; a failed write leaves some of the bytes. */
  datatype Luck = AllWell | CreateFails | WriteFails(written: nat) | SyncFails | RenameFails | DirSyncFails

  /** A scanned record with the bytes it was read from. */
  datatype Found = Found(bytes: Bytes, rec: LocalRecord)

  predicate SequenceLe(a: Found, b: Found) {
    a.rec.Sequence() <= b.rec.Sequence()
  }

  /** Any order in which the directory may be listed. */
  ghost predicate Enumerates(names: seq<Entry>, live: map<Entry, File>) {
    Distinct(names) && forall e :: e in names <==> e in live
  }

  ghost predicate FoundIn(codec: Codec, live: map<Entry, File>, e: Entry, f: Found) {
    e in live && f.bytes == live[e].bytes && codec.decode(f.bytes) == Some(f.rec)
  }

  function Contents(codec: Codec, live: map<Entry, File>): set<Found> {
    set e | e in live && codec.decode(live[e].bytes).Some? :: Found(live[e].bytes, codec.decode(live[e].bytes).value)
  }

  /** `s` holds the records of the directory and nothing else. */
  ghost predicate Lists(codec: Codec, live: map<Entry, File>, s: seq<Found>) {
    forall f :: f in s <==> f in Contents(codec, live)
  }

  /** Strictly increasing sequence numbers. */
  ghost predicate Increasing(s: seq<Found>) {
    forall i, j :: 0 <= i < j < |s| ==> s[i].rec.Sequence() < s[j].rec.Sequence()
  }

  /** Every reachable directory is orderly; the scannable ones are those without a partial entry. */
  ghost predicate Orderly(codec: Codec, live: map<Entry, File>) {
    (forall e :: e in live ==> !e.Stray?) && Journalled(codec, live)
  }

  lemma OrderlyScans(codec: Codec, live: map<Entry, File>)
    ensures Scannable(codec, live) <==> Orderly(codec, live) && !HasPartial(live)
  {
    hide WellFormed, Clash;
    if forall e :: e in live ==> e.Record? {
      assert Records(live) == live.Keys;
    }
  }

  lemma {:induction false} CountOf(names: seq<Entry>, s: set<Entry>)
    requires Distinct(names) && forall e :: e in names <==> e in s
    ensures |names| == |s|
  {
    if names == [] {
      assert s == {};
    } else {
      var rest := names[1..];
      forall e ensures e in rest <==> e in s - {names[0]} {
        if e in rest {
          var i :| 0 <= i < |rest| && rest[i] == e;
          assert names[0] != names[i + 1];
        }
      }
      CountOf(rest, s - {names[0]});
    }
  }

  /** The first `|records|` entries read, with no receipt or sequence twice. */
  ghost predicate Collected(codec: Codec, live: map<Entry, File>, names: seq<Entry>, records: seq<Found>) {
    && |records| <= |names|
    && (forall j :: 0 <= j < |records| ==>
          && names[j] == Record(records[j].rec.lease) && FoundIn(codec, live, names[j], records[j])
          && WellFormed(codec, names[j].stem, live[names[j]].bytes))
    && (forall j, k :: 0 <= j < k < |records| ==>
          && records[j].rec.Receipt() != records[k].rec.Receipt()
          && records[j].rec.Sequence() != records[k].rec.Sequence())
  }

  /** The checks of `scan` on one readable entry. */
  function ReadEntry(codec: Codec, name: Entry, bytes: Bytes): (out: Answer<Found>)
    ensures out.Fine? <==> name.Record? && WellFormed(codec, name.stem, bytes)
    ensures out.Fine? ==> Identifier(name.stem) && name == Record(out.value.rec.lease)
    ensures out.Fine? ==> out.value.bytes == bytes && codec.decode(bytes) == Some(out.value.rec)
    ensures out == Failed(Fault.Pending) <==> name.Partial?
    ensures out != Failed(Io)
  {
    if name.Partial? then Failed(Fault.Pending)
    else if name.Stray? || !Identifier(name.stem) then Failed(UnsafeEntry)
    else if |bytes| > MAX_RECORD then Failed(Capacity)
    else
      var decoded := codec.decode(bytes);
      if decoded.None? || decoded.value.schemaVersion != SCHEMA || decoded.value.lease != name.stem then Failed(Corrupt)
      else Fine(Found(bytes, decoded.value))
  }

  /** The loop of `scan` before its sort. */
  method Collect(codec: Codec, live: map<Entry, File>, names: seq<Entry>, unreadable: set<Entry>) returns (out: Answer<seq<Found>>)
    requires Enumerates(names, live)
    ensures out.Fine? ==> Scannable(codec, live) && |out.value| == |names| && Collected(codec, live, names, out.value)
    ensures out.Failed? && out.why != Io ==> if out.why == Fault.Pending then HasPartial(live) else !Orderly(codec, live)
    ensures out == Failed(Io) ==> exists e :: e in live && e in unreadable
  {
    hide Distinct, Scannable, Orderly, WellFormed, ReadEntry, Collected;
    CountOf(names, live.Keys);
    var records: seq<Found> := [];
    var receipts: set<Id> := {};
    var sequences: set<nat> := {};
    CollectNone(codec, live, names);
    for i := 0 to |names|
      invariant |records| == i <= MAX_RECORDS
      invariant Collected(codec, live, names, records)
      invariant receipts == set f | f in records :: f.rec.Receipt()
      invariant sequences == set f | f in records :: f.rec.Sequence()
    {
      var name := names[i];
      assert name in names;
      var bytes := live[name].bytes;
      var entry := ReadEntry(codec, name, bytes);
      if !(name.Partial? || name.Stray? || !Identifier(name.stem)) {
        if |records| >= MAX_RECORDS {
          TooMany(codec, live, names, records);
          return Failed(Capacity);
        }
        if name in unreadable {
          return Failed(Io);
        }
      }
      if entry.Failed? {
        if !name.Partial? {
          BadEntry(codec, live, name);
        }
        return Failed(entry.why);
      }
      var found := entry.value;
      if found.rec.Receipt() in receipts || found.rec.Sequence() in sequences {
        RepeatClashes(codec, live, names, records, found);
        return Failed(Corrupt);
      }
      CollectMore(codec, live, names, records, found);
      receipts := receipts + {found.rec.Receipt()};
      sequences := sequences + {found.rec.Sequence()};
      records := records + [found];
    }
    CollectedIsScannable(codec, live, names, records);
    return Fine(records);
  }

  lemma CollectNone(codec: Codec, live: map<Entry, File>, names: seq<Entry>)
    ensures Collected(codec, live, names, [])
  {
  }

  lemma TooMany(codec: Codec, live: map<Entry, File>, names: seq<Entry>, records: seq<Found>)
    requires Enumerates(names, live) && Collected(codec, live, names, records)
    requires MAX_RECORDS <= |records| < |names| && names[|records|].Record?
    ensures !Orderly(codec, live)
  {
    hide WellFormed;
    var first := names[..|records| + 1];
    var s := set e | e in first;
    CountOf(first, s);
    forall e | e in s ensures e in Records(live) {
      var j :| 0 <= j < |first| && first[j] == e;
      assert names[j] == e;
    }
    SubsetCounts(s, Records(live));
  }

  lemma BadEntry(codec: Codec, live: map<Entry, File>, e: Entry)
    requires e in live && !e.Partial? && !(e.Record? && WellFormed(codec, e.stem, live[e].bytes))
    ensures !Orderly(codec, live)
  {
  }

  lemma CollectMore(codec: Codec, live: map<Entry, File>, names: seq<Entry>, records: seq<Found>, f: Found)
    requires Collected(codec, live, names, records) && |records| < |names|
    requires names[|records|] == Record(f.rec.lease) && FoundIn(codec, live, names[|records|], f)
    requires WellFormed(codec, names[|records|].stem, live[names[|records|]].bytes)
    requires forall g :: g in records ==> g.rec.Receipt() != f.rec.Receipt() && g.rec.Sequence() != f.rec.Sequence()
    ensures Collected(codec, live, names, records + [f])
  {
    hide WellFormed;
  }

  lemma RepeatClashes(codec: Codec, live: map<Entry, File>, names: seq<Entry>, records: seq<Found>, f: Found)
    requires Enumerates(names, live) && Collected(codec, live, names, records) && |records| < |names|
    requires names[|records|] == Record(f.rec.lease) && FoundIn(codec, live, names[|records|], f)
    requires exists g :: g in records && (g.rec.Receipt() == f.rec.Receipt() || g.rec.Sequence() == f.rec.Sequence())
    ensures !Orderly(codec, live)
  {
    hide WellFormed;
    var g :| g in records && (g.rec.Receipt() == f.rec.Receipt() || g.rec.Sequence() == f.rec.Sequence());
    var j :| 0 <= j < |records| && records[j] == g;
    assert names[j] != names[|records|];
  }

  lemma CollectedIsScannable(codec: Codec, live: map<Entry, File>, names: seq<Entry>, records: seq<Found>)
    requires Enumerates(names, live) && Collected(codec, live, names, records) && |records| == |names| <= MAX_RECORDS
    ensures Scannable(codec, live)
  {
    CountOf(names, live.Keys);
    hide WellFormed, Enumerates, Collected, Clash;
    forall e | e in live ensures e.Record? && WellFormed(codec, e.stem, live[e].bytes) {
      var _ := PlaceOf(codec, live, names, records, e);
    }
    assert RecordsHold(codec, live);
    forall e, f | e in live && f in live && e.Record? && f.Record? && e != f
      ensures !Clash(Stored(codec, live[e]).value, Stored(codec, live[f]).value)
    {
      var j := PlaceOf(codec, live, names, records, e);
      var k := PlaceOf(codec, live, names, records, f);
      Apart(codec, live, names, records, j, k);
    }
  }

  lemma PlaceOf(codec: Codec, live: map<Entry, File>, names: seq<Entry>, records: seq<Found>, e: Entry) returns (j: nat)
    requires Enumerates(names, live) && Collected(codec, live, names, records) && |records| == |names| && e in live
    ensures j < |names| && names[j] == e && e.Record? && WellFormed(codec, e.stem, live[e].bytes)
    ensures Stored(codec, live[e]) == Some(records[j].rec)
  {
    hide Distinct, WellFormed;
    j :| 0 <= j < |names| && names[j] == e;
  }

  lemma Apart(codec: Codec, live: map<Entry, File>, names: seq<Entry>, records: seq<Found>, j: nat, k: nat)
    requires Collected(codec, live, names, records) && |records| == |names| && j < |names| && k < |names| && names[j] != names[k]
    ensures !Clash(records[j].rec, records[k].rec)
  {
    hide WellFormed, FoundIn;
    assert j < k || k < j;
  }

  lemma CollectedLists(codec: Codec, live: map<Entry, File>, names: seq<Entry>, records: seq<Found>)
    requires Enumerates(names, live) && Collected(codec, live, names, records) && |records| == |names|
    ensures Lists(codec, live, records)
  {
    hide WellFormed, Distinct;
    forall f ensures f in records <==> f in Contents(codec, live) {
      if f in records {
        var j :| 0 <= j < |records| && records[j] == f;
        assert names[j] in live;
      }
      if f in Contents(codec, live) {
        var e :| e in live && codec.decode(live[e].bytes).Some? && f == Found(live[e].bytes, codec.decode(live[e].bytes).value);
        var j :| 0 <= j < |names| && names[j] == e;
        assert records[j] == f;
      }
    }
  }

  /** Sorting what was collected. */
  lemma CollectedSorts(codec: Codec, live: map<Entry, File>, names: seq<Entry>, records: seq<Found>)
    requires Enumerates(names, live) && Collected(codec, live, names, records) && |records| == |names|
    ensures var s := Sort(SequenceLe, records);
            Increasing(s) && Lists(codec, live, s) && |s| == |live|
  {
    CollectedLists(codec, live, names, records);
    CountOf(names, live.Keys);
    var s := Sort(SequenceLe, records);
    SortSorts(SequenceLe, records);
    forall f ensures f in s <==> f in records {
      assert f in s <==> f in multiset(s);
    }
    hide Contents, WellFormed, Distinct, Sort;
    SortedIsIncreasing(records, s);
  }

  lemma SortedIsIncreasing(records: seq<Found>, s: seq<Found>)
    requires Sorted(SequenceLe, s) && multiset(s) == multiset(records)
    requires forall j, k :: 0 <= j < k < |records| ==> records[j].rec.Sequence() != records[k].rec.Sequence()
    ensures Increasing(s)
  {
    DistinctCounts(records);
    forall i, j | 0 <= i < j < |s| ensures s[i].rec.Sequence() < s[j].rec.Sequence() {
      assert SequenceLe(s[i], s[j]);
      if s[i] == s[j] {
        RepeatCounts(s, i, j);
      } else {
        assert s[i] in multiset(records) && s[j] in multiset(records);
        var k :| 0 <= k < |records| && records[k] == s[i];
        var l :| 0 <= l < |records| && records[l] == s[j];
        assert k < l || l < k;
      }
    }
  }

  lemma IncreasingSeparates(a: seq<Found>)
    requires Increasing(a)
    ensures Sorted(SequenceLe, a) && Separates(SequenceLe, a) && Distinct(a)
  {
    forall x, y | x in a && y in a && SequenceLe(x, y) && SequenceLe(y, x) ensures x == y {
      var i :| 0 <= i < |a| && a[i] == x;
      var j :| 0 <= j < |a| && a[j] == y;
      assert i < j || j < i || i == j;
    }
  }

  /** The result of a scan is a function of the contents: however the directory is listed,
      the records come out in the same, strictly increasing, order. */
  lemma ListingIsUnique(codec: Codec, live: map<Entry, File>, a: seq<Found>, b: seq<Found>)
    requires Lists(codec, live, a) && Lists(codec, live, b) && Increasing(a) && Increasing(b)
    ensures a == b
  {
    hide Contents;
    IncreasingSeparates(a);
    IncreasingSeparates(b);
    DistinctCounts(a);
    DistinctCounts(b);
    assert multiset(a) == multiset(b);
    SortedIsUnique(SequenceLe, a, b);
  }

  // ---------------------------------------------------------------- readback by original effect

  function Matching(s: seq<Found>, expected: OriginalEffect): seq<Found> {
    if s == [] then []
    else (if s[0].rec.outcome.MatchesOriginal(expected) then [s[0]] else []) + Matching(s[1..], expected)
  }

  lemma {:induction false} NoneMatches(s: seq<Found>, expected: OriginalEffect)
    requires forall f :: f in s ==> !f.rec.outcome.MatchesOriginal(expected)
    ensures Matching(s, expected) == []
  {
    if s != [] {
      assert s[0] in s;
      NoneMatches(s[1..], expected);
    }
  }

  /** Of the records of one scan at most one carries a given original effect, and the filter
      finds exactly that one. */
  lemma {:induction false} AtMostOneMatches(s: seq<Found>, expected: OriginalEffect)
    requires Increasing(s)
    ensures |Matching(s, expected)| <= 1
    ensures forall f :: f in s && f.rec.outcome.lineage == expected <==> f in Matching(s, expected)
  {
    if s != [] {
      AtMostOneMatches(s[1..], expected);
      if s[0].rec.outcome.MatchesOriginal(expected) {
        forall f | f in s[1..] ensures !f.rec.outcome.MatchesOriginal(expected) {
          var i :| 0 <= i < |s[1..]| && s[1..][i] == f;
          assert s[0].rec.Sequence() < s[i + 1].rec.Sequence();
        }
        NoneMatches(s[1..], expected);
      }
    }
  }

  // ---------------------------------------------------------------- the journal

  lemma IncreasingMeans(s: seq<Found>)
    ensures Increasing(s) <==>
              forall i, j :: 0 <= i < j < |s| ==> s[i].rec.outcome.lineage.localSeq < s[j].rec.outcome.lineage.localSeq
  {
  }

  method Scan(codec: Codec, live: map<Entry, File>, names: seq<Entry>, unreadable: set<Entry>) returns (out: Answer<seq<Found>>)
    requires Enumerates(names, live)
    ensures out.Fine? ==> Scannable(codec, live) && Increasing(out.value) && Lists(codec, live, out.value) && |out.value| == |live|
    ensures out.Fine? ==> forall i, j :: 0 <= i < j < |out.value| ==>
              out.value[i].rec.outcome.lineage.localSeq < out.value[j].rec.outcome.lineage.localSeq
    ensures out.Failed? && out.why != Io ==> if out.why == Fault.Pending then HasPartial(live) else !Orderly(codec, live)
    ensures out == Failed(Io) ==> exists e :: e in live && e in unreadable
  {
    hide Distinct, Scannable, Orderly, Collected, Increasing, Lists;
    var records :- Collect(codec, live, names, unreadable);
    CollectedSorts(codec, live, names, records);
    IncreasingMeans(Sort(SequenceLe, records));
    return Fine(Sort(SequenceLe, records));
  }

  /** The answer of `record` when no file operation fails. */
  ghost function Verdict(codec: Codec, live: map<Entry, File>, rec: LocalRecord): Answer<RecordResult>
    requires RecordsHold(codec, live)
  {
    if HasPartial(live) then Failed(Fault.Pending)
    else if Record(rec.lease) in live then
      if live[Record(rec.lease)].bytes == codec.encode(rec) then Fine(Existing) else Failed(Fault.Conflict)
    else if exists e :: e in live && e.Record? && Clash(Stored(codec, live[e]).value, rec) then Failed(Fault.Conflict)
    else if |live| >= 128 then Failed(Capacity)
    else Fine(Recorded)
  }

  /** The loop of `record` over the scanned records. */
  method Weigh(codec: Codec, live: map<Entry, File>, records: seq<Found>, rec: LocalRecord) returns (out: Answer<RecordResult>)
    requires codec.RoundTrips() && Scannable(codec, live) && Lists(codec, live, records) && |records| == |live|
    ensures out == Verdict(codec, live, rec) && out != Failed(Io)
  {
    hide Lists, Scannable, Verdict;
    for i := 0 to |records|
      invariant forall j :: 0 <= j < i ==> !Clash(records[j].rec, rec)
    {
      if records[i].rec.lease == rec.lease {
        SameLease(codec, live, records, records[i], rec);
        return if records[i].bytes == codec.encode(rec) then Fine(Existing) else Failed(Fault.Conflict);
      }
      if records[i].rec.Receipt() == rec.Receipt() || records[i].rec.Sequence() == rec.Sequence() {
        OtherLease(codec, live, records, records[i], rec);
        return Failed(Fault.Conflict);
      }
    }
    NoClash(codec, live, records, rec);
    return if |records| >= MAX_RECORDS then Failed(Capacity) else Fine(Recorded);
  }

  lemma EntryOf(codec: Codec, live: map<Entry, File>, records: seq<Found>, f: Found)
    requires Scannable(codec, live) && Lists(codec, live, records) && f in records
    ensures Record(f.rec.lease) in live && live[Record(f.rec.lease)].bytes == f.bytes
    ensures Stored(codec, live[Record(f.rec.lease)]) == Some(f.rec)
  {
    hide Separate;
    assert f in Contents(codec, live);
  }

  lemma SameLease(codec: Codec, live: map<Entry, File>, records: seq<Found>, f: Found, rec: LocalRecord)
    requires Scannable(codec, live) && Lists(codec, live, records) && f in records && f.rec.lease == rec.lease
    ensures Verdict(codec, live, rec) == if f.bytes == codec.encode(rec) then Fine(Existing) else Failed(Fault.Conflict)
  {
    EntryOf(codec, live, records, f);
    hide Separate, Clash, Lists, WellFormed;
  }

  /** A receipt or sequence already used under another lease: not even an exact retry of this
      record can be in the directory. */
  lemma OtherLease(codec: Codec, live: map<Entry, File>, records: seq<Found>, f: Found, rec: LocalRecord)
    requires codec.RoundTrips() && Scannable(codec, live) && Lists(codec, live, records) && f in records
    requires f.rec.lease != rec.lease && Clash(f.rec, rec)
    ensures Verdict(codec, live, rec) == Failed(Fault.Conflict)
  {
    EntryOf(codec, live, records, f);
    hide WellFormed, Lists;
    assert codec.decode(codec.encode(rec)) == Some(rec);
  }

  lemma NoClash(codec: Codec, live: map<Entry, File>, records: seq<Found>, rec: LocalRecord)
    requires Scannable(codec, live) && Lists(codec, live, records)
    requires forall f :: f in records ==> !Clash(f.rec, rec)
    ensures Verdict(codec, live, rec) == if |live| >= MAX_RECORDS then Failed(Capacity) else Fine(Recorded)
    ensures forall e :: e in live && e.Record? ==> !Clash(Stored(codec, live[e]).value, rec)
  {
    hide Separate;
    forall e | e in live ensures e.Record? && !Clash(Stored(codec, live[e]).value, rec) && e != Record(rec.lease) {
      var f := Found(live[e].bytes, codec.decode(live[e].bytes).value);
      assert f in Contents(codec, live);
      assert f in records;
    }
  }

  lemma AdmittedBy(codec: Codec, live: map<Entry, File>, rec: LocalRecord)
    requires Scannable(codec, live) && Verdict(codec, live, rec) == Fine(Recorded)
    requires rec.schemaVersion == SCHEMA && Identifier(rec.lease) && |codec.encode(rec)| <= MAX_RECORD
    ensures Admits(codec, live, rec)
  {
    hide WellFormed, Separate;
    assert Records(live) == live.Keys;
  }

  class OwnerJournal {
    const codec: Codec
    var dir: Dir
    ghost var log: seq<Move>

    ghost predicate Tracked()
      reads this
    {
      codec.RoundTrips() && Run(codec, log) == Some(dir)
    }

    ghost predicate Valid()
      reads this
    {
      Tracked() && dir.busy.Idle?
    }

    constructor (codec: Codec)
      requires codec.RoundTrips()
      ensures Valid() && this.codec == codec && log == []
    {
      this.codec := codec;
      dir := BLANK;
      log := [];
    }

    /** The power fails and the directory is opened again. */
    method Restart(image: map<Entry, Bytes>)
      requires Valid() && Survives(dir, image)
      modifies this
      ensures Valid() && log == old(log) + [PowerLoss(image)]
    {
      RunExtends(codec, log, PowerLoss(image));
      dir := Dir(map e | e in image :: File(image[e], true), image.Keys, Idle);
      log := log + [PowerLoss(image)];
    }

    /** `inspect`; `held` says that another process holds the lock. */
    method Inspect(held: bool, names: seq<Entry>, unreadable: set<Entry>) returns (out: Answer<seq<Found>>)
      requires Valid() && Enumerates(names, dir.live)
      ensures out.Fine? ==> !held && Increasing(out.value) && Lists(codec, dir.live, out.value)
      ensures HasPartial(dir.live) ==> out.Failed?
      ensures out.Failed? && out.why != Io ==> out.why == Fault.Pending && (held || HasPartial(dir.live))
      ensures out == Failed(Io) ==> exists e :: e in dir.live && e in unreadable
    {
      hide Run, Scannable, Lists, Increasing, Journalled, BusyHolds, HasPartial;
      if held {
        return Failed(Fault.Pending);
      }
      RunIsGood(codec, log);
      OrderlyScans(codec, dir.live);
      out := Scan(codec, dir.live, names, unreadable);
    }

    /** The file operations of `record`: each may fail, and then nothing is undone. */
    method Append(rec: LocalRecord, luck: Luck) returns (out: Answer<RecordResult>)
      requires Valid() && Scannable(codec, dir.live) && Admits(codec, dir.live, rec)
      modifies this
      ensures Valid() && old(log) <= log
      ensures forall m :: m in log[|old(log)|..] ==> !m.PowerLoss?
      ensures out == if luck.AllWell? then Fine(Recorded) else Failed(Io)
      ensures forall e :: e in old(dir.live) ==> e in dir.live && dir.live[e] == old(dir.live[e])
      ensures out.Fine? ==>
                && dir.live == old(dir.live)[Record(rec.lease) := File(codec.encode(rec), true)]
                && dir.pinned == dir.live.Keys
    {
      hide Run, Scannable, Admits, Codec.RoundTrips, Survives, Records;
      var bytes := codec.encode(rec);
      AdmittedIsNew(codec, dir.live, rec);
      if luck.CreateFails? {
        return Failed(Io);
      }
      Do(Create(rec));
      if luck.WriteFails? {
        Do(Write(if luck.written < |bytes| then luck.written else |bytes|));
        Do(Stop);
        return Failed(Io);
      }
      Do(Write(|bytes|));
      assert bytes[..|bytes|] == bytes;
      out := Publish(rec, luck, old(dir.live));
    }

    /** From a wholly written partial file on: sync, rename without replacing, sync the directory. */
    method Publish(rec: LocalRecord, luck: Luck, ghost before: map<Entry, File>) returns (out: Answer<RecordResult>)
      requires Tracked() && dir.busy == Writing(rec) && !luck.CreateFails? && !luck.WriteFails?
      requires Record(rec.lease) !in before && Partial(rec.lease) !in before
      requires dir.live == before[Partial(rec.lease) := File(codec.encode(rec), false)]
      modifies this
      ensures Valid() && old(log) <= log
      ensures forall m :: m in log[|old(log)|..] ==> !m.PowerLoss?
      ensures out == if luck.AllWell? then Fine(Recorded) else Failed(Io)
      ensures forall e :: e in before ==> e in dir.live && dir.live[e] == before[e]
      ensures out.Fine? ==>
                && dir.live == before[Record(rec.lease) := File(codec.encode(rec), true)]
                && dir.pinned == dir.live.Keys
    {
      hide Run, Scannable, Admits, Codec.RoundTrips, Survives, Records;
      if luck.SyncFails? {
        Do(Stop);
        return Failed(Io);
      }
      Do(Flush);
      if luck.RenameFails? {
        Do(Stop);
        return Failed(Io);
      }
      Do(Rename);
      assert dir.live == before[Record(rec.lease) := File(codec.encode(rec), true)];
      if luck.DirSyncFails? {
        Do(Stop);
        return Failed(Io);
      }
      Do(SyncDir);
      Do(Stop);
      return Fine(Recorded);
    }

    method Do(m: Move)
      requires Tracked() && Apply(codec, dir, m).Some? && !m.PowerLoss?
      modifies this
      ensures Tracked() && Some(dir) == Apply(codec, old(dir), m) && log == old(log) + [m]
    {
      hide Run, Codec.RoundTrips, Scannable, Admits;
      RunExtends(codec, log, m);
      match m {
        case Create(rec) => dir := Dir(dir.live[Partial(rec.lease) := File([], false)], dir.pinned, Writing(rec));
        case Write(n) =>
          dir := dir.(live := dir.live[Partial(dir.busy.rec.lease) := File(codec.encode(dir.busy.rec)[..n], false)]);
        case Flush =>
          var name := Partial(dir.busy.rec.lease);
          dir := dir.(live := dir.live[name := dir.live[name].(flushed := true)]);
        case Rename =>
          var rec := dir.busy.rec;
          var file := dir.live[Partial(rec.lease)];
          dir := Dir((dir.live - {Partial(rec.lease)})[Record(rec.lease) := file], dir.pinned, Renamed(rec));
        case SyncDir => dir := dir.(pinned := dir.live.Keys);
        case Stop => dir := dir.(busy := Idle);
      }
      log := log + [m];
    }

    /** `record`. */
    method RecordOutcome(held: bool, names: seq<Entry>, unreadable: set<Entry>, luck: Luck, lease: Id, outcome: Outcome, expected: OriginalEffect)
      returns (out: Answer<RecordResult>)
      requires Valid() && Enumerates(names, dir.live) && Identifier(lease)
      modifies this
      ensures Valid() && old(log) <= log
      ensures forall m :: m in log[|old(log)|..] ==> !m.PowerLoss?
      ensures forall e :: e in old(dir.live) ==> e in dir.live && dir.live[e] == old(dir.live[e])
      ensures RecordsHold(codec, old(dir.live))
      ensures var rec := LocalRecord("disk-local-owner-journal/1-source", lease, outcome);
              && (outcome.lineage != expected ==> out == Failed(Fault.Conflict))
              && (outcome.lineage == expected && |codec.encode(rec)| > 16_384 ==> out == Failed(Capacity))
              && (outcome.lineage == expected && |codec.encode(rec)| <= 16_384 && out != Failed(Io) ==>
                    out == if held then Failed(Fault.Pending) else Verdict(codec, old(dir.live), rec))
              && (out == Fine(Recorded) ==>
                    && dir.live == old(dir.live)[Record(lease) := File(codec.encode(rec), true)]
                    && dir.pinned == dir.live.Keys)
      ensures out != Fine(Recorded) && out != Failed(Io) ==> dir == old(dir) && log == old(log)
      ensures old(HasPartial(dir.live)) ==> out.Failed? && dir == old(dir) && log == old(log)
      // `Existing` observes a record, it does not make it durable.
      ensures out == Fine(Existing) ==> Record(lease) in dir.live && (Record(lease) in dir.pinned <==> SettledSince(log, lease))
      ensures out == Failed(Io) ==> !luck.AllWell? || exists e :: e in old(dir.live) && e in unreadable
    {
      hide Run, Scannable, Lists, Increasing, BusyHolds, HasPartial, Verdict;
      RunIsGood(codec, log);
      OrderlyScans(codec, dir.live);
      if !outcome.MatchesOriginal(expected) {
        return Failed(Fault.Conflict);
      }
      var rec := LocalRecord(SCHEMA, lease, outcome);
      if |codec.encode(rec)| > MAX_RECORD {
        return Failed(Capacity);
      }
      if held {
        return Failed(Fault.Pending);
      }
      var scanned := Scan(codec, dir.live, names, unreadable);
      if scanned.Failed? {
        PartialPends(codec, dir.live, rec);
        return Failed(scanned.why);
      }
      out := Weigh(codec, dir.live, scanned.value, rec);
      if out == Fine(Existing) {
        ExistingIsThere(codec, dir.live, rec);
        PinnedIffSettled(codec, log, lease);
      }
      if out == Fine(Recorded) {
        AdmittedBy(codec, dir.live, rec);
        out := Append(rec, luck);
      }
    }
  }

  lemma ExistingIsThere(codec: Codec, live: map<Entry, File>, rec: LocalRecord)
    requires RecordsHold(codec, live) && Verdict(codec, live, rec) == Fine(Existing)
    ensures Record(rec.lease) in live && live[Record(rec.lease)].bytes == codec.encode(rec)
  {
  }

  lemma AdmittedIsNew(codec: Codec, live: map<Entry, File>, rec: LocalRecord)
    requires Scannable(codec, live) && Admits(codec, live, rec)
    ensures Record(rec.lease) !in live && Partial(rec.lease) !in live
  {
    hide Separate;
  }

  lemma PartialPends(codec: Codec, live: map<Entry, File>, rec: LocalRecord)
    requires RecordsHold(codec, live)
    ensures HasPartial(live) ==> Verdict(codec, live, rec) == Failed(Fault.Pending)
  {
  }
}
