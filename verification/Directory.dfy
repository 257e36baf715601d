/**
 The owner-journal directory and what a crash can do to it.  `live` is what the running
 system sees; `pinned` are the entries a directory sync, or an earlier crash, made durable.
 A record is created under a pending name, written, synced, renamed without replacing, and
 the directory is synced; the writer may stop, and the power may fail, between any two steps.
 */
module Directory {
  import opened Results
  import opened Native

  const MAX_RECORD: nat := 16_384
  const MAX_RECORDS: nat := 128
  const SCHEMA := "disk-local-owner-journal/1-source"

  datatype LocalRecord = LocalRecord(schemaVersion: string, lease: Id, outcome: Outcome) {
    function Receipt(): Id {
      outcome.lineage.ownerReceiptId
    }

    function Sequence(): nat {
      outcome.lineage.localSeq
    }
  }

  /** The JSON library: decoding undoes encoding. */
  datatype Codec = Codec(encode: LocalRecord -> Bytes, decode: Bytes -> Option<LocalRecord>) {
    ghost predicate RoundTrips() {
      forall rec :: decode(encode(rec)) == Some(rec)
    }
  }

  // ---------------------------------------------------------------- names

  /** A name as `scan` reads it; the directory's own names and the lock are skipped. */
  datatype Entry = Partial(stem: string) | Record(stem: string) | Stray(name: string)

  predicate EndsWith(s: string, suffix: string) {
    |suffix| <= |s| && s[|s| - |suffix|..] == suffix
  }

  function Classify(name: string): Entry {
    if EndsWith(name, ".pending") then Partial(name[..|name| - 8])
    else if EndsWith(name, ".json") then Record(name[..|name| - 5])
    else Stray(name)
  }

  function NameOf(e: Entry): string {
    match e
    case Partial(stem) => stem + ".pending"
    case Record(stem) => stem + ".json"
    case Stray(name) => name
  }

  /** Names and entries correspond one to one. */
  lemma NamesAreExact(name: string, e: Entry)
    ensures NameOf(Classify(name)) == name
    ensures !e.Stray? ==> Classify(NameOf(e)) == e
    ensures NameOf(Partial(name)) == name + ".pending" && NameOf(Record(name)) == name + ".json"
  {
    if e.Partial? {
      assert NameOf(e)[|NameOf(e)| - 8..] == ".pending";
    } else if e.Record? {
      assert NameOf(e)[|NameOf(e)| - 5..] == ".json";
      var n := NameOf(e);
      assert n[|n| - 1] == 'n' && ".pending"[7] == 'g';
      if |n| >= 8 {
        assert n[|n| - 8..][7] == n[|n| - 1];
      }
    }
  }

  // ---------------------------------------------------------------- the directory

  datatype File = File(bytes: Bytes, flushed: bool)
  datatype Busy = Idle | Writing(rec: LocalRecord) | Renamed(rec: LocalRecord)
  datatype Dir = Dir(live: map<Entry, File>, pinned: set<Entry>, busy: Busy)

  const BLANK := Dir(map[], {}, Idle)

  predicate WellFormed(codec: Codec, stem: string, bytes: Bytes) {
    && Identifier(stem)
    && |bytes| <= 16_384
    && codec.decode(bytes).Some?
    && codec.decode(bytes).value.schemaVersion == "disk-local-owner-journal/1-source"
    && codec.decode(bytes).value.lease == stem
  }

  ghost predicate Clash(a: LocalRecord, b: LocalRecord) {
    a.lease == b.lease || a.Receipt() == b.Receipt() || a.Sequence() == b.Sequence()
  }

  function Stored(codec: Codec, f: File): Option<LocalRecord> {
    codec.decode(f.bytes)
  }

  function Records(live: map<Entry, File>): set<Entry> {
    set e | e in live && e.Record?
  }

  ghost predicate RecordsHold(codec: Codec, live: map<Entry, File>) {
    forall e :: e in live && e.Record? ==> WellFormed(codec, e.stem, live[e].bytes)
  }

  ghost predicate Separate(codec: Codec, live: map<Entry, File>)
    requires RecordsHold(codec, live)
  {
    forall e, f :: e in live && f in live && e.Record? && f.Record? && e != f ==>
      !Clash(Stored(codec, live[e]).value, Stored(codec, live[f]).value)
  }

  /** Exactly the directories a scan accepts. */
  ghost predicate Scannable(codec: Codec, live: map<Entry, File>) {
    && (forall e :: e in live ==> e.Record?)
    && RecordsHold(codec, live)
    && Separate(codec, live)
    && |live| <= 128
  }

  /** A new record the scanned directory has room and no clash for. */
  ghost predicate Admits(codec: Codec, live: map<Entry, File>, rec: LocalRecord)
    requires RecordsHold(codec, live)
  {
    && rec.schemaVersion == SCHEMA && Identifier(rec.lease) && |codec.encode(rec)| <= 16_384
    && (forall e :: e in live && e.Record? ==> !Clash(Stored(codec, live[e]).value, rec))
    && |Records(live)| < 128
  }

  // ---------------------------------------------------------------- moves

  datatype Move =
    | Create(rec: LocalRecord)
    | Write(n: nat)
    | Flush
    | Rename
    | SyncDir
    | Stop
    | PowerLoss(image: map<Entry, Bytes>)

  /** What may be found after a power loss: pinned entries as they were; other entries or
      not, unsynced contents as anything; a rename that was not synced, undone or not. */
  ghost predicate Survives(d: Dir, image: map<Entry, Bytes>) {
    && (forall e :: e in d.pinned ==> e in image && e in d.live && image[e] == d.live[e].bytes)
    && (forall e :: e in image ==>
          || (e in d.live && (d.live[e].flushed ==> image[e] == d.live[e].bytes))
          || (e.Partial? && Record(e.stem) in d.live && Record(e.stem) !in d.pinned
              && image[e] == d.live[Record(e.stem)].bytes))
  }

  ghost function Apply(codec: Codec, d: Dir, m: Move): Option<Dir> {
    match m
    case Create(rec) =>
      if d.busy.Idle? && Scannable(codec, d.live) && Admits(codec, d.live, rec)
      then Some(Dir(d.live[Partial(rec.lease) := File([], false)], d.pinned, Writing(rec)))
      else None
    case Write(n) =>
      if d.busy.Writing? && Partial(d.busy.rec.lease) in d.live && n <= |codec.encode(d.busy.rec)|
      then Some(d.(live := d.live[Partial(d.busy.rec.lease) := File(codec.encode(d.busy.rec)[..n], false)]))
      else None
    case Flush =>
      if d.busy.Writing? && Partial(d.busy.rec.lease) in d.live
      then Some(d.(live := d.live[Partial(d.busy.rec.lease) := d.live[Partial(d.busy.rec.lease)].(flushed := true)]))
      else None
    case Rename =>
      if !d.busy.Writing? then None
      else
        var rec := d.busy.rec;
        var from, to := Partial(rec.lease), Record(rec.lease);
        if from !in d.live || to in d.live || d.live[from] != File(codec.encode(rec), true) then None
        else Some(Dir((d.live - {from})[to := d.live[from]], d.pinned, Renamed(rec)))
    case SyncDir => if d.busy.Renamed? then Some(d.(pinned := d.live.Keys)) else None
    case Stop => Some(d.(busy := Idle))
    case PowerLoss(image) =>
      if Survives(d, image) then Some(Dir(map e | e in image :: File(image[e], true), image.Keys, Idle)) else None
  }

  ghost function Run(codec: Codec, log: seq<Move>): Option<Dir> {
    if log == [] then Some(BLANK)
    else
      match Run(codec, log[..|log| - 1])
      case None => None
      case Some(d) => Apply(codec, d, log[|log| - 1])
  }

  lemma RunExtends(codec: Codec, log: seq<Move>, m: Move)
    ensures Run(codec, log + [m]) == (if Run(codec, log).Some? then Apply(codec, Run(codec, log).value, m) else None)
  {
    hide Apply;
    assert (log + [m])[..|log + [m]| - 1] == log;
  }

  // ---------------------------------------------------------------- the invariant

  ghost predicate HasPartial(live: map<Entry, File>) {
    exists e :: e in live && e.Partial?
  }

  /** The records: whole, distinct in lease, receipt and sequence, at most 128. */
  ghost predicate Journalled(codec: Codec, live: map<Entry, File>) {
    RecordsHold(codec, live) && Separate(codec, live) && |Records(live)| <= 128
  }

  ghost predicate Tidy(d: Dir) {
    && (forall e :: e in d.live ==> !e.Stray?)
    && (forall e :: e in d.live && e.Record? ==> d.live[e].flushed)
    && d.pinned <= d.live.Keys
    && (forall e :: e in d.pinned ==> d.live[e].flushed)
    // A durable partial entry means a crash left it: then everything is durable.
    && ((exists e :: e in d.pinned && e.Partial?) ==> d.pinned == d.live.Keys && d.busy.Idle?)
  }

  ghost predicate BusyHolds(codec: Codec, d: Dir)
    requires RecordsHold(codec, d.live)
  {
    match d.busy
    case Idle => true
    case Writing(rec) =>
      && Partial(rec.lease) in d.live && Admits(codec, d.live, rec)
      && (forall e :: e in d.live && e.Partial? ==> e == Partial(rec.lease))
    case Renamed(rec) =>
      && !HasPartial(d.live)
      && Record(rec.lease) in d.live && d.live[Record(rec.lease)].bytes == codec.encode(rec)
  }

  ghost predicate Good(codec: Codec, d: Dir) {
    Tidy(d) && Journalled(codec, d.live) && BusyHolds(codec, d)
  }

  lemma SubsetCounts<T>(a: set<T>, b: set<T>)
    requires a <= b
    ensures |a| <= |b|
  {
    assert b == a + (b - a);
  }

  ghost predicate RecordsWithin(a: map<Entry, File>, b: map<Entry, File>) {
    forall e :: e in a && e.Record? ==> e in b && a[e].bytes == b[e].bytes
  }

  /** Losing records keeps the rest in order. */
  lemma FewerRecords(codec: Codec, live: map<Entry, File>, less: map<Entry, File>)
    requires Journalled(codec, live) && RecordsWithin(less, live)
    ensures Journalled(codec, less)
    ensures |Records(less)| <= |Records(live)|
  {
    hide WellFormed, Clash;
    SubsetCounts(Records(less), Records(live));
  }

  lemma AdmitsWithin(codec: Codec, live: map<Entry, File>, less: map<Entry, File>, rec: LocalRecord)
    requires Journalled(codec, live) && RecordsWithin(less, live) && Admits(codec, live, rec)
    ensures Journalled(codec, less) && Admits(codec, less, rec)
  {
    hide WellFormed, Clash;
    FewerRecords(codec, live, less);
    hide Journalled;
  }

  /** `more` has the records of `live` or fewer, and `rec`. */
  ghost predicate Joins(codec: Codec, live: map<Entry, File>, more: map<Entry, File>, rec: LocalRecord) {
    && Record(rec.lease) in more && more[Record(rec.lease)].bytes == codec.encode(rec)
    && forall e :: e in more && e.Record? && e != Record(rec.lease) ==> e in live && more[e].bytes == live[e].bytes
  }

  /** An admitted record joins the others. */
  lemma OneMoreRecord(codec: Codec, live: map<Entry, File>, more: map<Entry, File>, rec: LocalRecord)
    requires codec.RoundTrips() && Journalled(codec, live) && Admits(codec, live, rec) && Joins(codec, live, more, rec)
    ensures Journalled(codec, more)
  {
    assert codec.decode(codec.encode(rec)) == Some(rec);
    hide Codec.RoundTrips;
    SubsetCounts(Records(more), Records(live) + {Record(rec.lease)});
    assert WellFormed(codec, rec.lease, codec.encode(rec));
    hide WellFormed, Clash;
    assert RecordsHold(codec, more);
    forall e, f | e in more && f in more && e.Record? && f.Record? && e != f
      ensures !Clash(Stored(codec, more[e]).value, Stored(codec, more[f]).value)
    {
      StaysApart(codec, live, more, rec, e, f);
    }
  }

  lemma StaysApart(codec: Codec, live: map<Entry, File>, more: map<Entry, File>, rec: LocalRecord, e: Entry, f: Entry)
    requires RecordsHold(codec, live) && Separate(codec, live) && RecordsHold(codec, more) && Joins(codec, live, more, rec)
    requires codec.decode(codec.encode(rec)) == Some(rec)
    requires forall g :: g in live && g.Record? ==> !Clash(Stored(codec, live[g]).value, rec)
    requires e in more && f in more && e.Record? && f.Record? && e != f
    ensures !Clash(Stored(codec, more[e]).value, Stored(codec, more[f]).value)
  {
    hide Identifier;
    if e == Record(rec.lease) {
      assert !Clash(Stored(codec, live[f]).value, rec);
    } else if f == Record(rec.lease) {
      assert !Clash(Stored(codec, live[e]).value, rec);
    }
  }

  lemma MoveKeepsRecords(codec: Codec, d: Dir, m: Move)
    requires codec.RoundTrips() && Good(codec, d) && Apply(codec, d, m).Some?
    ensures Journalled(codec, Apply(codec, d, m).value.live)
  {
    hide Journalled, WellFormed, Clash, Scannable, Codec.RoundTrips;
    var d' := Apply(codec, d, m).value;
    if m.Rename? {
      hide Admits;
      OneMoreRecord(codec, d.live, d'.live, d.busy.rec);
    } else {
      assert RecordsWithin(d'.live, d.live);
      FewerRecords(codec, d.live, d'.live);
    }
  }

  lemma MoveKeepsTidy(codec: Codec, d: Dir, m: Move)
    requires Good(codec, d) && Apply(codec, d, m).Some?
    ensures Tidy(Apply(codec, d, m).value)
  {
    hide Journalled, RecordsHold, Separate, Admits;
  }

  lemma MoveKeepsBusy(codec: Codec, d: Dir, m: Move)
    requires Good(codec, d) && Apply(codec, d, m).Some? && Journalled(codec, Apply(codec, d, m).value.live)
    ensures BusyHolds(codec, Apply(codec, d, m).value)
  {
    hide WellFormed, Clash, Admits;
    var d' := Apply(codec, d, m).value;
    assert RecordsHold(codec, d.live) && RecordsHold(codec, d'.live);
    hide RecordsHold, Journalled;
    if d'.busy.Writing? {
      assert RecordsWithin(d'.live, d.live);
      AdmitsWithin(codec, d.live, d'.live, d'.busy.rec);
    }
  }

  lemma MoveKeeps(codec: Codec, d: Dir, m: Move)
    requires codec.RoundTrips() && Good(codec, d) && Apply(codec, d, m).Some?
    ensures Good(codec, Apply(codec, d, m).value)
  {
    MoveKeepsRecords(codec, d, m);
    MoveKeepsTidy(codec, d, m);
    MoveKeepsBusy(codec, d, m);
  }

  /** Every reachable directory is good: no stray names, whole records with distinct leases,
      receipts and sequences, at most 128 of them. */
  lemma {:induction false} RunIsGood(codec: Codec, log: seq<Move>)
    requires codec.RoundTrips() && Run(codec, log).Some?
    ensures Good(codec, Run(codec, log).value)
  {
    hide Apply;
    if log != [] {
      RunIsGood(codec, log[..|log| - 1]);
      hide Good;
      MoveKeeps(codec, Run(codec, log[..|log| - 1]).value, log[|log| - 1]);
    }
  }

  /** On every reachable directory two records differ in lease, in receipt and in sequence, each is
      under its own lease, and there are at most 128. */
  lemma RecordsAreDistinct(codec: Codec, log: seq<Move>, e: Entry, f: Entry)
    requires codec.RoundTrips() && Run(codec, log).Some?
    ensures var live := Run(codec, log).value.live;
            && |Records(live)| <= 128
            && (e in live && e.Record? ==>
                  && codec.decode(live[e].bytes).Some? && |live[e].bytes| <= 16_384
                  && codec.decode(live[e].bytes).value.lease == e.stem
                  && codec.decode(live[e].bytes).value.schemaVersion == "disk-local-owner-journal/1-source")
            && (e in live && f in live && e.Record? && f.Record? && e != f ==>
                  codec.decode(live[f].bytes).Some? &&
                  var a, b := codec.decode(live[e].bytes).value, codec.decode(live[f].bytes).value;
                  && a.lease != b.lease
                  && a.outcome.lineage.ownerReceiptId != b.outcome.lineage.ownerReceiptId
                  && a.outcome.lineage.localSeq != b.outcome.lineage.localSeq)
  {
    hide Run, Identifier;
    RunIsGood(codec, log);
  }

  // ---------------------------------------------------------------- what survives

  lemma PinnedStep(codec: Codec, d: Dir, m: Move, e: Entry)
    requires Good(codec, d) && Apply(codec, d, m).Some? && e in d.pinned
    ensures var d' := Apply(codec, d, m).value;
            e in d'.pinned && e in d'.live && d'.live[e].bytes == d.live[e].bytes
  {
    hide Journalled, RecordsHold, Separate, Admits;
  }

  lemma SplitLast(codec: Codec, log: seq<Move>, more: seq<Move>) returns (mid: seq<Move>, m: Move)
    requires codec.RoundTrips() && more != [] && Run(codec, log + more).Some?
    ensures m == more[|more| - 1] && mid == log + more[..|more| - 1]
    ensures Run(codec, mid).Some? && Good(codec, Run(codec, mid).value)
    ensures Run(codec, log + more) == Apply(codec, Run(codec, mid).value, m)
  {
    hide Apply, Good;
    m := more[|more| - 1];
    mid := log + more[..|more| - 1];
    assert log + more == mid + [m];
    RunExtends(codec, mid, m);
    RunIsGood(codec, mid);
  }

  /** What a directory sync or a crash has made durable stays, with its bytes, through every
      later step, failure and power loss. */
  lemma {:induction false} PinnedStays(codec: Codec, log: seq<Move>, more: seq<Move>, e: Entry)
    requires codec.RoundTrips() && Run(codec, log).Some? && Run(codec, log + more).Some?
    requires e in Run(codec, log).value.pinned
    ensures e in Run(codec, log).value.live
    ensures var d, d' := Run(codec, log).value, Run(codec, log + more).value;
            e in d'.pinned && e in d'.live && d'.live[e].bytes == d.live[e].bytes
  {
    hide Apply;
    RunIsGood(codec, log);
    if more == [] {
      assert log + more == log;
    } else {
      var mid, m := SplitLast(codec, log, more);
      PinnedStays(codec, log, more[..|more| - 1], e);
      PinnedStep(codec, Run(codec, mid).value, m, e);
    }
  }

  lemma SyncPins(codec: Codec, d: Dir)
    requires Good(codec, d) && Apply(codec, d, SyncDir).Some?
    ensures var d' := Apply(codec, d, SyncDir).value;
            && d'.busy == d.busy && d'.busy.Renamed? && Record(d'.busy.rec.lease) in d'.pinned
            && Record(d'.busy.rec.lease) in d'.live
            && d'.live[Record(d'.busy.rec.lease)].bytes == codec.encode(d'.busy.rec)
  {
    hide Journalled, Tidy;
  }

  /** A recorded entry survives: once the directory sync of its call has run, every later
      directory, after any crashes, holds exactly its bytes under its lease. */
  lemma RecordedSurvives(codec: Codec, log: seq<Move>, more: seq<Move>)
    requires codec.RoundTrips() && Run(codec, log + [SyncDir]).Some? && Run(codec, log + [SyncDir] + more).Some?
    ensures Run(codec, log).Some? && Run(codec, log).value.busy.Renamed?
    ensures var rec, d := Run(codec, log).value.busy.rec, Run(codec, log + [SyncDir] + more).value;
            && Record(rec.lease) in d.live && d.live[Record(rec.lease)].bytes == codec.encode(rec)
            && Stored(codec, d.live[Record(rec.lease)]) == Some(rec)
  {
    hide Apply, Good;
    RunExtends(codec, log, SyncDir);
    RunIsGood(codec, log);
    SyncPins(codec, Run(codec, log).value);
    PinnedStays(codec, log + [SyncDir], more, Record(Run(codec, log).value.busy.rec.lease));
  }

  // ---------------------------------------------------------------- what blocks

  /** With a partial entry left over, nothing but a power loss changes the directory. */
  lemma {:induction false} PartialBlocks(codec: Codec, log: seq<Move>, more: seq<Move>)
    requires Run(codec, log).Some? && Run(codec, log + more).Some?
    requires Run(codec, log).value.busy.Idle? && HasPartial(Run(codec, log).value.live)
    requires forall m :: m in more ==> !m.PowerLoss?
    ensures Run(codec, log + more) == Run(codec, log)
  {
    hide Admits, RecordsHold, Separate;
    if more == [] {
      assert log + more == log;
    } else {
      var rest, m := more[..|more| - 1], more[|more| - 1];
      assert log + more == (log + rest) + [m];
      RunExtends(codec, log + rest, m);
      PartialBlocks(codec, log, rest);
      assert m in more;
    }
  }

  lemma PinnedPartialStep(codec: Codec, d: Dir, m: Move)
    requires Good(codec, d) && Apply(codec, d, m).Some? && exists e :: e in d.pinned && e.Partial?
    ensures var d' := Apply(codec, d, m).value;
            && d'.live.Keys == d.live.Keys && (forall e :: e in d.live ==> d'.live[e].bytes == d.live[e].bytes)
            && d'.pinned == d.pinned
  {
    hide Journalled, RecordsHold, Separate, Admits;
    var d' := Apply(codec, d, m).value;
    var e :| e in d.pinned && e.Partial?;
    if m.PowerLoss? {
      assert forall f :: f in d'.live ==> f in d.live;
    }
  }

  /** A durable partial entry freezes the directory for good, power losses included. */
  lemma {:induction false} PinnedPartialFreezes(codec: Codec, log: seq<Move>, more: seq<Move>)
    requires codec.RoundTrips() && Run(codec, log).Some? && Run(codec, log + more).Some?
    requires exists e :: e in Run(codec, log).value.pinned && e.Partial?
    ensures var d, d' := Run(codec, log).value, Run(codec, log + more).value;
            && d'.live.Keys == d.live.Keys && (forall e :: e in d.live ==> d'.live[e].bytes == d.live[e].bytes)
            && d'.pinned == d.pinned
  {
    hide Apply, Good;
    if more == [] {
      assert log + more == log;
    } else {
      var mid, m := SplitLast(codec, log, more);
      PinnedPartialFreezes(codec, log, more[..|more| - 1]);
      PinnedPartialStep(codec, Run(codec, mid).value, m);
    }
  }

  /** Since the last record was begun, the power has failed. */
  predicate PowerFailedSince(log: seq<Move>) {
    log != [] &&
    match log[|log| - 1]
    case PowerLoss(_) => true
    case Create(_) => false
    case _ => PowerFailedSince(log[..|log| - 1])
  }

  lemma PinnedIffStep(codec: Codec, d: Dir, m: Move, stem: string, failed: bool)
    requires Good(codec, d) && Apply(codec, d, m).Some? && Partial(stem) in Apply(codec, d, m).value.live
    requires Partial(stem) in d.live ==> (Partial(stem) in d.pinned <==> failed)
    ensures Partial(stem) in Apply(codec, d, m).value.pinned <==>
              m.PowerLoss? || (!m.Create? && failed)
    ensures !m.PowerLoss? && !m.Create? ==> Partial(stem) in d.live
  {
    hide Journalled, RecordsHold, Separate, Admits;
    if m.Create? {
      assert Partial(stem) !in d.live;
    }
  }

  /** A partial entry is durable exactly when the power failed after its record was begun. */
  lemma {:induction false} PinnedIffPowerFailed(codec: Codec, log: seq<Move>, stem: string)
    requires codec.RoundTrips() && Run(codec, log).Some? && Partial(stem) in Run(codec, log).value.live
    ensures Partial(stem) in Run(codec, log).value.pinned <==> PowerFailedSince(log)
  {
    hide Apply, Good;
    var front, m := log[..|log| - 1], log[|log| - 1];
    var d := Run(codec, front).value;
    RunIsGood(codec, front);
    if Partial(stem) in d.live {
      PinnedIffPowerFailed(codec, front, stem);
    }
    PinnedIffStep(codec, d, m, stem, PowerFailedSince(front));
  }

  /** What is not durable, the next power loss may take. */
  lemma PinnedOrLost(codec: Codec, log: seq<Move>, e: Entry)
    requires codec.RoundTrips() && Run(codec, log).Some? && e in Run(codec, log).value.live
    ensures (forall more :: Run(codec, log + more).Some? ==> e in Run(codec, log + more).value.live)
            <==> e in Run(codec, log).value.pinned
  {
    hide Admits, Journalled, Scannable;
    var d := Run(codec, log).value;
    if e in d.pinned {
      forall more | Run(codec, log + more).Some? ensures e in Run(codec, log + more).value.live {
        hide Apply;
        PinnedStays(codec, log, more, e);
      }
    } else {
      RunIsGood(codec, log);
      var image := map f | f in d.pinned :: d.live[f].bytes;
      RunExtends(codec, log, PowerLoss(image));
      assert Survives(d, image);
      assert Run(codec, log + [PowerLoss(image)]).Some?;
      assert e !in Run(codec, log + [PowerLoss(image)]).value.live;
    }
  }

  /** A left-over partial entry is there for every continuation exactly when the power failed
      after its record was begun: until then the next power loss may take it away. */
  lemma PartialIsForeverIff(codec: Codec, log: seq<Move>, stem: string)
    requires codec.RoundTrips() && Run(codec, log).Some? && Partial(stem) in Run(codec, log).value.live
    ensures (forall more :: Run(codec, log + more).Some? ==> Partial(stem) in Run(codec, log + more).value.live)
            <==> PowerFailedSince(log)
  {
    hide Run;
    PinnedOrLost(codec, log, Partial(stem));
    PinnedIffPowerFailed(codec, log, stem);
  }

  /** A run that shows it: the writer stops right after creating its entry, the power fails,
      and the directory is blank again, ready for the next record. */
  lemma PartialCanBeLost(codec: Codec, rec: LocalRecord)
    requires rec.schemaVersion == SCHEMA && Identifier(rec.lease) && |codec.encode(rec)| <= MAX_RECORD
    ensures var left := Run(codec, [Create(rec), Stop]);
            left.Some? && Partial(rec.lease) in left.value.live && left.value.busy.Idle?
    ensures Run(codec, [Create(rec), Stop, PowerLoss(map[])]) == Some(BLANK)
  {
    CreatedAlone(codec, rec);
    hide Run, Scannable, Admits, Survives, Identifier;
    RunExtends(codec, [Create(rec)], Stop);
    RunExtends(codec, [Create(rec), Stop], PowerLoss(map[]));
    assert [Create(rec)] + [Stop] == [Create(rec), Stop];
    assert [Create(rec), Stop] + [PowerLoss(map[])] == [Create(rec), Stop, PowerLoss(map[])];
    LosesAll(codec, map[Partial(rec.lease) := File([], false)]);
  }

  // ---------------------------------------------------------------- which records last

  /** The record of the last call that created an entry. */
  function LastCreated(log: seq<Move>): Option<LocalRecord> {
    if log == [] then None
    else if log[|log| - 1].Create? then Some(log[|log| - 1].rec)
    else LastCreated(log[..|log| - 1])
  }

  /** A directory sync or a power loss came after the rename of this record. */
  predicate SettledSince(log: seq<Move>, lease: Id) {
    log != [] &&
    var front := log[..|log| - 1];
    match log[|log| - 1]
    case SyncDir => true
    case PowerLoss(_) => true
    case Rename => (LastCreated(front).Some? ==> LastCreated(front).value.lease != lease) && SettledSince(front, lease)
    case _ => SettledSince(front, lease)
  }

  lemma {:induction false} BusyIsLastCreated(codec: Codec, log: seq<Move>)
    requires Run(codec, log).Some? && !Run(codec, log).value.busy.Idle?
    ensures LastCreated(log) == Some(Run(codec, log).value.busy.rec)
  {
    hide Scannable, Admits, Survives;
    var front, m := log[..|log| - 1], log[|log| - 1];
    if !m.Create? {
      BusyIsLastCreated(codec, front);
    }
  }

  lemma RecordStep(codec: Codec, d: Dir, m: Move, lease: Id)
    requires Good(codec, d) && Apply(codec, d, m).Some? && Record(lease) in Apply(codec, d, m).value.live
    ensures var d' := Apply(codec, d, m).value;
            && (m.SyncDir? || m.PowerLoss? ==> Record(lease) in d'.pinned)
            && (m.Rename? && d.busy.rec.lease == lease ==> Record(lease) !in d'.pinned)
            && (!m.SyncDir? && !m.PowerLoss? && !(m.Rename? && d.busy.rec.lease == lease) ==>
                  Record(lease) in d.live && (Record(lease) in d'.pinned <==> Record(lease) in d.pinned))
  {
    hide Journalled, RecordsHold, Separate, Admits;
  }

  lemma {:induction false} PinnedIffSettled(codec: Codec, log: seq<Move>, lease: Id)
    requires codec.RoundTrips() && Run(codec, log).Some? && Record(lease) in Run(codec, log).value.live
    ensures Record(lease) in Run(codec, log).value.pinned <==> SettledSince(log, lease)
  {
    hide Good;
    var front, m := log[..|log| - 1], log[|log| - 1];
    var d := Run(codec, front).value;
    RunIsGood(codec, front);
    RecordStep(codec, d, m, lease);
    if m.Rename? {
      BusyIsLastCreated(codec, front);
    }
    hide Apply;
    if Record(lease) in d.live {
      PinnedIffSettled(codec, front, lease);
    }
  }

  /** A record, whether its call succeeded or not, is there for every continuation exactly when a
      directory sync or a power loss came after its rename. */
  lemma RecordIsForeverIff(codec: Codec, log: seq<Move>, lease: Id)
    requires codec.RoundTrips() && Run(codec, log).Some? && Record(lease) in Run(codec, log).value.live
    ensures (forall more :: Run(codec, log + more).Some? ==> Record(lease) in Run(codec, log + more).value.live)
            <==> SettledSince(log, lease)
  {
    hide Run;
    PinnedOrLost(codec, log, Record(lease));
    PinnedIffSettled(codec, log, lease);
  }

  /** A run that shows it: the directory sync fails, the record is there whole, and a power loss
      takes it. */
  lemma RecordCanBeLost(codec: Codec, rec: LocalRecord)
    requires codec.RoundTrips() && rec.schemaVersion == SCHEMA && Identifier(rec.lease) && |codec.encode(rec)| <= MAX_RECORD
    ensures var log := [Create(rec), Write(|codec.encode(rec)|), Flush, Rename, Stop];
            && Run(codec, log) == Some(Dir(map[Record(rec.lease) := File(codec.encode(rec), true)], {}, Idle))
            && Run(codec, log + [PowerLoss(map[])]) == Some(BLANK)
  {
    hide Run, Apply, Identifier;
    var c, w := Create(rec), Write(|codec.encode(rec)|);
    WrittenAlone(codec, rec);
    RenamedAlone(codec, [c, w], rec);
    var log := [c, w, Flush, Rename, Stop];
    assert [c, w] + [Flush] + [Rename] + [Stop] == log;
    RunExtends(codec, log, PowerLoss(map[]));
    LosesAll(codec, map[Record(rec.lease) := File(codec.encode(rec), true)]);
  }

  lemma WrittenAlone(codec: Codec, rec: LocalRecord)
    requires rec.schemaVersion == SCHEMA && Identifier(rec.lease) && |codec.encode(rec)| <= MAX_RECORD
    ensures Run(codec, [Create(rec), Write(|codec.encode(rec)|)]) ==
              Some(Dir(map[Partial(rec.lease) := File(codec.encode(rec), false)], {}, Writing(rec)))
  {
    CreatedAlone(codec, rec);
    hide Run, Scannable, Admits, Survives, Identifier;
    var bytes, c, w := codec.encode(rec), Create(rec), Write(|codec.encode(rec)|);
    RunExtends(codec, [c], w);
    assert [c] + [w] == [c, w] && bytes[..|bytes|] == bytes;
    var from := Partial(rec.lease);
    assert map[from := File([], false)][from := File(bytes, false)] == map[from := File(bytes, false)];
  }

  lemma CreatedAlone(codec: Codec, rec: LocalRecord)
    requires rec.schemaVersion == SCHEMA && Identifier(rec.lease) && |codec.encode(rec)| <= MAX_RECORD
    ensures Run(codec, [Create(rec)]) == Some(Dir(map[Partial(rec.lease) := File([], false)], {}, Writing(rec)))
  {
    hide Identifier;
    assert Scannable(codec, map[]) && Admits(codec, map[], rec);
    hide Scannable, Admits, Survives;
    RunExtends(codec, [], Create(rec));
    assert [] + [Create(rec)] == [Create(rec)];
  }

  lemma RenamedAlone(codec: Codec, log: seq<Move>, rec: LocalRecord)
    requires Run(codec, log) == Some(Dir(map[Partial(rec.lease) := File(codec.encode(rec), false)], {}, Writing(rec)))
    ensures Run(codec, log + [Flush] + [Rename] + [Stop]) ==
              Some(Dir(map[Record(rec.lease) := File(codec.encode(rec), true)], {}, Idle))
  {
    hide Run, Scannable, Admits, Survives;
    var file, from, to := File(codec.encode(rec), true), Partial(rec.lease), Record(rec.lease);
    RunExtends(codec, log, Flush);
    assert map[from := file.(flushed := false)][from := file] == map[from := file];
    assert Run(codec, log + [Flush]) == Some(Dir(map[from := file], {}, Writing(rec)));
    RunExtends(codec, log + [Flush], Rename);
    assert (map[from := file] - {from})[to := file] == map[to := file];
    RunExtends(codec, log + [Flush] + [Rename], Stop);
  }

  lemma LosesAll(codec: Codec, live: map<Entry, File>)
    ensures Apply(codec, Dir(live, {}, Idle), PowerLoss(map[])) == Some(BLANK)
  {
    var image: map<Entry, Bytes> := map[];
    assert Survives(Dir(live, {}, Idle), image);
    var after := Apply(codec, Dir(live, {}, Idle), PowerLoss(image)).value;
    assert after.live.Keys == {};
    assert after.live == map[] && after.pinned == {};
  }
}
