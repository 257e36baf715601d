/**
 The four inventory tables, the statements run on them, and the four transactions built
 from those statements (`parent_backend.rs`).  Everything here is the effect a transaction
 has when no query fails; `Backend` adds the failures.
 */
module Inventory {
  import opened Results
  import opened Native

  datatype Disposition = FencedNoCommit | ExistingOrUnknown

  /** `NativeCommitContext`. */
  datatype Context = Context(
    lease: Id, proposal: Outcome, original: OriginalEffect,
    resource: Resource, descriptor: Descriptor, disposition: Disposition)
  {
    predicate Matches(r: Request) {
      && resource == r.ResourceIdentity()
      && descriptor == r.descriptor
      && proposal.MatchesOriginal(original)
    }
  }

  function FromControlReadback(lease: Id, proposal: Outcome, original: OriginalEffect, r: Request,
                               disposition: Disposition): (e: Result<Context>)
    ensures e.Ok? <==> proposal.MatchesOriginal(original)
    ensures e.Ok? ==> forall s: Request ::
              e.value.Matches(s) <==> s.descriptor == r.descriptor && s.ResourceIdentity() == r.ResourceIdentity()
  {
    if !proposal.MatchesOriginal(original) then Err(Conflict)
    else Ok(Context(lease, proposal, original, r.ResourceIdentity(), r.descriptor, disposition))
  }

  // ---------------------------------------------------------------- tables

  datatype CaptureRow = CaptureRow(descriptor: Descriptor, cancelled: Option<CancelledResource>)
  datatype AttemptState = AttemptPrepared | AttemptCommitted
  datatype AttemptRow = AttemptRow(lease: Id, proposal: Outcome, state: AttemptState)
  datatype ObjectRow = ObjectRow(capture: Id, receipt: ObjectReceipt, body: Option<Bytes>, outcome: Outcome)
  datatype JournalRow = JournalRow(ownerReceipt: Id, lease: Id, sequence: nat, resource: Resource, outcome: Outcome)

  /** Primary keys are map keys; the journal keeps its rows in order of insertion. */
  datatype Tables = Tables(
    captures: map<Id, CaptureRow>,
    attempts: map<Resource, AttemptRow>,
    objects: map<Resource, ObjectRow>,
    journal: seq<JournalRow>)

  const EMPTY := Tables(map[], map[], map[], [])
  const JOURNAL_CAPACITY: nat := 128

  /** `SELECT … FROM owner_journal WHERE resource = ?`. */
  function RowsFor(journal: seq<JournalRow>, res: Resource): seq<JournalRow> {
    if journal == [] then []
    else
      var last := journal[|journal| - 1];
      RowsFor(journal[..|journal| - 1], res) + (if last.resource == res then [last] else [])
  }

  /** `capture`: absent, or the cancellation column of the row with this very descriptor. */
  function SelectCapture(t: Tables, r: Request): Result<Option<Option<CancelledResource>>> {
    if r.CaptureId() !in t.captures then Ok(None)
    else if t.captures[r.CaptureId()].descriptor != r.descriptor then Err(Conflict)
    else Ok(Some(t.captures[r.CaptureId()].cancelled))
  }

  // ---------------------------------------------------------------- statements

  /** What a transaction body comes to: new tables, a refusal, or a violated constraint. */
  datatype Verdict = Applied(tables: Tables) | Declined(why: Refusal) | Violated

  function InsertCapture(t: Tables, r: Request, cancelled: Option<CancelledResource>): Tables {
    if r.CaptureId() in t.captures then t
    else t.(captures := t.captures[r.CaptureId() := CaptureRow(r.descriptor, cancelled)])
  }

  function InsertAttempt(t: Tables, res: Resource, lease: Id, proposal: Outcome): Verdict {
    if res in t.attempts || exists k :: k in t.attempts && t.attempts[k].lease == lease then Violated
    else Applied(t.(attempts := t.attempts[res := AttemptRow(lease, proposal, AttemptPrepared)]))
  }

  function InsertObject(t: Tables, res: Resource, row: ObjectRow): Verdict {
    if res in t.objects || row.capture !in t.captures then Violated
    else Applied(t.(objects := t.objects[res := row]))
  }

  function CommitAttempt(t: Tables, res: Resource, lease: Id): Tables {
    if res in t.attempts && t.attempts[res].lease == lease && t.attempts[res].state == AttemptPrepared
    then t.(attempts := t.attempts[res := t.attempts[res].(state := AttemptCommitted)])
    else t
  }

  function EraseBodies(t: Tables, resources: seq<Resource>, capture: Id): Tables {
    t.(objects := map res | res in t.objects ::
      if res in resources && t.objects[res].capture == capture
      then t.objects[res].(body := None) else t.objects[res])
  }

  function RowOf(e: Context, res: Resource): JournalRow {
    JournalRow(e.proposal.lineage.ownerReceiptId, e.lease, e.proposal.lineage.localSeq, res, e.proposal)
  }

  /** The UNIQUE columns of the journal admit this row. */
  predicate Fresh(journal: seq<JournalRow>, row: JournalRow) {
    forall j :: j in journal ==>
      j.ownerReceipt != row.ownerReceipt && j.lease != row.lease && j.sequence != row.sequence
  }

  function AppendJournal(t: Tables, e: Context, r: Request): Verdict {
    var row := RowOf(e, r.ResourceIdentity());
    if |t.journal| >= JOURNAL_CAPACITY then Declined(Backpressure)
    else if !Fresh(t.journal, row) then Violated
    else Applied(t.(journal := t.journal + [row]))
  }

  // ---------------------------------------------------------------- transactions

  /** First transaction of `stage_context`: a durable PREPARED row. */
  function PrepareTx(t: Tables, e: Context, r: Request): Verdict {
    var t1 := InsertCapture(t, r, None);
    if SelectCapture(t1, r) != Ok(Some(None)) then Declined(Conflict)
    else InsertAttempt(t1, r.ResourceIdentity(), e.lease, e.proposal)
  }

  /** Second transaction of `stage_context`: bytes, journal row and COMMITTED together. */
  function CommitTx(t: Tables, e: Context, r: Request, receipt: ObjectReceipt, bytes: Bytes): Verdict {
    var res := r.ResourceIdentity();
    if SelectCapture(t, r) != Ok(Some(None)) then Declined(Conflict)
    else
      match InsertObject(t, res, ObjectRow(r.CaptureId(), receipt, Some(bytes), e.proposal))
      case Applied(t1) =>
        (match AppendJournal(t1, e, r)
         case Applied(t2) => Applied(CommitAttempt(t2, res, e.lease))
         case v => v)
      case v => v
  }

  /** Parts with bytes but no COMMITTED mark. */
  function HalfWritten(t: Tables, capture: Id): set<Resource> {
    set res | res in t.attempts && t.attempts[res].state == AttemptPrepared
              && res in t.objects && t.objects[res].capture == capture
  }

  predicate SomePrepared(t: Tables, resources: seq<Resource>) {
    exists res :: res in resources && res in t.attempts && t.attempts[res].state != AttemptCommitted
  }

  /** The transaction of `tombstone_context`. */
  function TombstoneTx(t: Tables, r: Request, c: CancelledResource): Verdict {
    if HalfWritten(t, r.CaptureId()) != {} then Declined(Refusal.Pending)
    else if SomePrepared(t, r.PartResources()) then Declined(Refusal.Pending)
    else
      var t1 := InsertCapture(t, r, Some(c));
      match SelectCapture(t1, r)
      case Ok(Some(None)) =>
        Applied(t1.(captures := t1.captures[r.CaptureId() := CaptureRow(r.descriptor, Some(c))]))
      case Ok(Some(Some(known))) => if known == c then Applied(t1) else Declined(Conflict)
      case _ => Declined(Conflict)
  }

  function BodiesLeft(t: Tables, capture: Id): set<Resource> {
    set res | res in t.objects && t.objects[res].capture == capture && t.objects[res].body.Some?
  }

  /** The transaction of `cleanup_context`. */
  function EraseTx(t: Tables, e: Context, r: Request): Verdict {
    var t1 := EraseBodies(t, r.PartResources(), r.CaptureId());
    if BodiesLeft(t1, r.CaptureId()) != {} then Declined(Conflict)
    else AppendJournal(t1, e, r)
  }

  // ---------------------------------------------------------------- observation

  datatype Observation =
    | Unseen
    | Prepared
    | Durable(outcome: Outcome)
    | CleanupPending
    | CancelledCleaned(outcome: Outcome)
    | Corrupt
    | Unknown

  function ObserveCancelled(t: Tables, e: Context, r: Request, c: CancelledResource): Result<Observation> {
    var rows := RowsFor(t.journal, r.ResourceIdentity());
    if |rows| > 1 then Ok(Corrupt)
    else if |rows| == 0 then Ok(CleanupPending)
    else
      var o := rows[0].outcome;
      if o.DiskCleaned? then
        if !o.MatchesOriginal(e.original) || !r.Accepts(CleanupCancelled) then Err(Conflict)
        else if !c.Validate(r) then Err(NotAvailable)
        else
          var _ :- c.VerifyCleaned(r, o);
          Ok(CancelledCleaned(o))
      else if r.Accepts(CleanupCancelled) then Ok(Corrupt)
      else Ok(CleanupPending)
  }

  function ObserveOpen(t: Tables, e: Context, r: Request): Result<Observation> {
    var res := r.ResourceIdentity();
    var rows := RowsFor(t.journal, res);
    if res in t.attempts && t.attempts[res].state == AttemptPrepared then
      Ok(if res !in t.objects && rows == [] then Prepared else Corrupt)
    else if res in t.objects then
      if res !in t.attempts then Ok(Corrupt)
      else
        var o := t.objects[res].outcome;
        var _ :- o.Receipt(r);
        if !o.MatchesOriginal(e.original) || !o.MatchesOperation(Stage) then Err(Conflict)
        else if |rows| == 1 && rows[0].outcome == o
                && rows[0].ownerReceipt == o.lineage.ownerReceiptId
                && rows[0].sequence == o.lineage.localSeq
                && t.attempts[res].proposal == o
        then Ok(Durable(o))
        else Ok(Corrupt)
    else if res in t.attempts || rows != [] then Ok(Corrupt)
    else Ok(if e.disposition.FencedNoCommit? then Unseen else Unknown)
  }

  /** `observe_context`: one resource, read from all four tables. */
  function Observe(t: Tables, e: Context, r: Request): Result<Observation> {
    if !e.Matches(r) then Err(NotAvailable)
    else
      var capture :- SelectCapture(t, r);
      if capture.Some? && capture.value.Some? then ObserveCancelled(t, e, r, capture.value.value)
      else ObserveOpen(t, e, r)
  }

  /** `read_context`. */
  function Read(lib: Library, t: Tables, e: Context, r: Request, max: nat): Result<Bytes> {
    var seen :- Observe(t, e, r);
    if !seen.Durable? then Err(NotAvailable)
    else
      var selected :- r.Selected();
      var res := r.ResourceIdentity();
      if max != selected.sizeBytes || SelectCapture(t, r) != Ok(Some(None)) then Err(NotAvailable)
      else if res !in t.objects || res !in t.attempts || t.objects[res].body.None? then Err(NotAvailable)
      else
        var row := t.objects[res];
        if |row.body.value| != max || row.receipt != selected || t.attempts[res].state != AttemptCommitted
        then Err(NotAvailable)
        else
          var _ :- row.outcome.Receipt(r);
          var _ :- r.VerifyBody(lib, row.body.value);
          Ok(row.body.value)
  }

  // ---------------------------------------------------------------- what an answer rests on

  /** The capture is not cancelled: there is no row for it, or an open one of this descriptor. */
  predicate Open(t: Tables, r: Request) {
    r.CaptureId() in t.captures ==> t.captures[r.CaptureId()] == CaptureRow(r.descriptor, None)
  }

  /** Whatever the tables hold, reachable or not, an observation rests on evidence in all four:
      nothing is called durable, prepared, fresh or cleaned that one of them contradicts. */
  lemma EvidenceIsComplete(t: Tables, e: Context, r: Request, o: Outcome)
    ensures var seen, res := Observe(t, e, r), r.ResourceIdentity();
            var rows := RowsFor(t.journal, res);
            && (seen == Ok(Durable(o)) ==>
                  && Open(t, r) && res in t.objects && t.objects[res].outcome == o
                  && res in t.attempts && t.attempts[res].state == AttemptCommitted && t.attempts[res].proposal == o
                  && |rows| == 1 && rows[0].outcome == o
                  && rows[0].ownerReceipt == o.lineage.ownerReceiptId && rows[0].sequence == o.lineage.localSeq
                  && o.lineage == e.original && o.DiskStored? && r.selected == Some(o.objectReceipt))
            && (seen == Ok(Prepared) ==>
                  Open(t, r) && res in t.attempts && t.attempts[res].state == AttemptPrepared && res !in t.objects && rows == [])
            && (seen == Ok(Unseen) || seen == Ok(Unknown) ==>
                  Open(t, r) && res !in t.attempts && res !in t.objects && rows == [])
            && (seen == Ok(CancelledCleaned(o)) ==>
                  && r.CaptureId() in t.captures && t.captures[r.CaptureId()].descriptor == r.descriptor
                  && t.captures[r.CaptureId()].cancelled.Some? && r.selected.None?
                  && t.captures[r.CaptureId()].cancelled.value.VerifyCleaned(r, o).Ok?
                  && |rows| == 1 && rows[0].outcome == o && o.lineage == e.original && o.DiskCleaned?)
  {
    hide RowsFor, CancelledResource.VerifyCleaned, CancelledResource.Validate;
  }

  /** Contradicting rows of an open capture are reported, not guessed about. */
  lemma ContradictionIsReported(t: Tables, e: Context, r: Request)
    requires e.Matches(r) && Open(t, r)
    ensures var res := r.ResourceIdentity();
            var attempt, stored, rows := res in t.attempts, res in t.objects, RowsFor(t.journal, res);
            && (attempt && t.attempts[res].state == AttemptPrepared && (stored || rows != []) ==> Observe(t, e, r) == Ok(Corrupt))
            && (stored != attempt && !(attempt && t.attempts[res].state == AttemptPrepared) ==> Observe(t, e, r) == Ok(Corrupt))
            && (!stored && !attempt && rows != [] ==> Observe(t, e, r) == Ok(Corrupt))
  {
    hide RowsFor;
  }

  /** A read returns stored bytes only, and only declared ones. */
  lemma ReadIsChecked(lib: Library, t: Tables, e: Context, r: Request, max: nat, bytes: Bytes)
    requires r.Parsed(lib) && Read(lib, t, e, r, max) == Ok(bytes)
    ensures r.selected.Some? && |bytes| == max == r.selected.value.sizeBytes
    ensures lib.sha256(bytes) == r.selected.value.sha256 && lib.utf8(bytes)
    ensures var res := r.ResourceIdentity();
            && res in t.objects && t.objects[res].body == Some(bytes) && t.objects[res].receipt == r.selected.value
            && res in t.attempts && t.attempts[res].state == AttemptCommitted
  {
    hide RowsFor, Accepted, VerifyReceiptBytes, Observe, Request.VerifyBody;
    BodyAcceptedExactly(lib, r, bytes);
  }

  /** The same of a cancelled one. */
  lemma CancelledContradictionIsReported(t: Tables, e: Context, r: Request)
    requires e.Matches(r) && r.CaptureId() in t.captures
    requires t.captures[r.CaptureId()].descriptor == r.descriptor && t.captures[r.CaptureId()].cancelled.Some?
    ensures var rows := RowsFor(t.journal, r.ResourceIdentity());
            && (|rows| > 1 ==> Observe(t, e, r) == Ok(Corrupt))
            && (|rows| == 1 && rows[0].outcome.DiskStored? && r.selected.None? ==> Observe(t, e, r) == Ok(Corrupt))
            && (rows == [] ==> Observe(t, e, r) == Ok(CleanupPending))
  {
    hide RowsFor;
  }

  // ---------------------------------------------------------------- what a transaction does, on any tables

  /** No journal row has this receipt, lease or sequence. */
  ghost predicate Unused(t: Tables, e: Context) {
    forall i :: 0 <= i < |t.journal| ==>
      && t.journal[i].ownerReceipt != e.proposal.lineage.ownerReceiptId
      && t.journal[i].lease != e.lease && t.journal[i].sequence != e.proposal.lineage.localSeq
  }

  lemma UnusedIsFresh(t: Tables, e: Context, res: Resource)
    ensures Unused(t, e) <==> Fresh(t.journal, RowOf(e, res))
  {
    if Fresh(t.journal, RowOf(e, res)) {
      assert forall i :: 0 <= i < |t.journal| ==> t.journal[i] in t.journal;
    }
  }

  /** A prepare needs an open capture, a fresh resource and a fresh lease, and adds the PREPARED row. */
  lemma PrepareExactly(t: Tables, e: Context, r: Request)
    ensures var res, v := r.ResourceIdentity(), PrepareTx(t, e, r);
            && (v.Applied? <==> Open(t, r) && res !in t.attempts && forall k :: k in t.attempts ==> t.attempts[k].lease != e.lease)
            && (v.Applied? ==>
                  v.tables == Tables(t.captures[r.CaptureId() := CaptureRow(r.descriptor, None)],
                                     t.attempts[res := AttemptRow(e.lease, e.proposal, AttemptPrepared)], t.objects, t.journal))
            && (v.Declined? <==> !Open(t, r)) && (v.Declined? ==> v.why == Conflict)
  {
    if r.CaptureId() in t.captures && Open(t, r) {
      assert t.captures[r.CaptureId() := CaptureRow(r.descriptor, None)] == t.captures;
    }
  }

  /** A commit needs an open capture, no object yet and room and fresh keys in the journal; bytes,
      journal row and COMMITTED appear together. */
  lemma CommitExactly(t: Tables, e: Context, r: Request, receipt: ObjectReceipt, bytes: Bytes)
    ensures var res, id, v := r.ResourceIdentity(), r.CaptureId(), CommitTx(t, e, r, receipt, bytes);
            && (v.Applied? <==>
                  && id in t.captures && t.captures[id] == CaptureRow(r.descriptor, None) && res !in t.objects
                  && |t.journal| < 128 && Unused(t, e))
            && (v.Applied? ==>
                  && v.tables.captures == t.captures
                  && v.tables.objects == t.objects[res := ObjectRow(id, receipt, Some(bytes), e.proposal)]
                  && v.tables.journal == t.journal +
                       [JournalRow(e.proposal.lineage.ownerReceiptId, e.lease, e.proposal.lineage.localSeq, res, e.proposal)]
                  && v.tables.attempts ==
                       if res in t.attempts && t.attempts[res].lease == e.lease && t.attempts[res].state == AttemptPrepared
                       then t.attempts[res := AttemptRow(e.lease, t.attempts[res].proposal, AttemptCommitted)] else t.attempts)
            && (v == Declined(Conflict) <==> !(id in t.captures && t.captures[id] == CaptureRow(r.descriptor, None)))
  {
    hide Fresh;
    UnusedIsFresh(t, e, r.ResourceIdentity());
    hide Unused;
  }

  /** A cancellation needs no part in doubt and a capture that is absent, open, or cancelled by the
      same value, and sets the one column. */
  lemma TombstoneExactly(t: Tables, r: Request, c: CancelledResource)
    ensures var id, v := r.CaptureId(), TombstoneTx(t, r, c);
            && (v.Applied? <==>
                  && (forall res :: res in t.attempts && t.attempts[res].state == AttemptPrepared ==>
                        !(res in t.objects && t.objects[res].capture == id)
                        && !(res.descriptor == r.descriptor && exists p :: p in r.descriptor.parts && res.part == Some(p.partId)))
                  && (id in t.captures ==>
                        t.captures[id].descriptor == r.descriptor && t.captures[id].cancelled in {None, Some(c)}))
            && (v.Applied? ==> v.tables == t.(captures := t.captures[id := CaptureRow(r.descriptor, Some(c))]))
            && v != Violated
  {
    PartsAre(r);
    NotPrepared(t, r);
    hide SomePrepared, HalfWritten;
    var id := r.CaptureId();
    if id in t.captures && t.captures[id] == CaptureRow(r.descriptor, Some(c)) {
      assert t.captures[id := CaptureRow(r.descriptor, Some(c))] == t.captures;
    }
  }

  lemma PartsAre(r: Request)
    ensures forall res: Resource :: res in r.PartResources() <==>
              res.descriptor == r.descriptor && exists p :: p in r.descriptor.parts && res.part == Some(p.partId)
  {
    var all := r.PartResources();
    forall res: Resource
      ensures res in all <==> res.descriptor == r.descriptor && exists p :: p in r.descriptor.parts && res.part == Some(p.partId)
    {
      if res in all {
        var i :| 0 <= i < |all| && all[i] == res;
        assert r.descriptor.parts[i] in r.descriptor.parts;
      }
      if res.descriptor == r.descriptor && exists p :: p in r.descriptor.parts && res.part == Some(p.partId) {
        var p :| p in r.descriptor.parts && res.part == Some(p.partId);
        var i :| 0 <= i < |r.descriptor.parts| && r.descriptor.parts[i] == p;
        assert all[i] == res;
      }
    }
  }

  lemma NotPrepared(t: Tables, r: Request)
    ensures HalfWritten(t, r.CaptureId()) == {} && !SomePrepared(t, r.PartResources()) <==>
              forall res :: res in t.attempts && t.attempts[res].state == AttemptPrepared ==>
                !(res in t.objects && t.objects[res].capture == r.CaptureId()) && !(res in r.PartResources())
  {
    var half := HalfWritten(t, r.CaptureId());
    assert forall res :: res in half <==>
      && res in t.attempts && t.attempts[res].state == AttemptPrepared
      && res in t.objects && t.objects[res].capture == r.CaptureId();
    if half != {} {
      var res :| res in half;
    }
  }

  /** An erasing needs every body of the capture to be one of its parts and room and fresh keys in
      the journal; it takes exactly those bodies and adds one row. */
  lemma EraseExactly(t: Tables, e: Context, r: Request)
    ensures var id, v := r.CaptureId(), EraseTx(t, e, r);
            && (v.Applied? <==>
                  && (forall res :: res in t.objects && t.objects[res].capture == id && t.objects[res].body.Some? ==>
                        res in r.PartResources())
                  && |t.journal| < 128 && Unused(t, e))
            && (v.Applied? ==>
                  && v.tables.captures == t.captures && v.tables.attempts == t.attempts
                  && v.tables.journal == t.journal + [JournalRow(
                       e.proposal.lineage.ownerReceiptId, e.lease, e.proposal.lineage.localSeq, r.ResourceIdentity(), e.proposal)]
                  && v.tables.objects.Keys == t.objects.Keys
                  && forall res :: res in t.objects ==>
                       v.tables.objects[res] ==
                         if t.objects[res].capture == id && res in r.PartResources() then t.objects[res].(body := None) else t.objects[res])
  {
    UnusedIsFresh(t, e, r.ResourceIdentity());
    hide Fresh, Unused;
    var t1 := EraseBodies(t, r.PartResources(), r.CaptureId());
    var left := BodiesLeft(t1, r.CaptureId());
    assert forall res :: res in left <==>
      && res in t.objects && t.objects[res].capture == r.CaptureId() && t.objects[res].body.Some?
      && res !in r.PartResources();
    if left != {} {
      var res :| res in left;
    }
  }
}
