/** Every run keeps the tables in agreement with the phase machine, resource by resource. */
module Refinement {
  import opened Results
  import opened Native
  import opened Inventory
  import opened Protocol

  lemma RowsForAppend(journal: seq<JournalRow>, row: JournalRow, res: Resource)
    ensures RowsFor(journal + [row], res) == RowsFor(journal, res) + (if row.resource == res then [row] else [])
  {
    assert (journal + [row])[..|journal + [row]| - 1] == journal;
  }

  /** Prepared and committed parts are parts of the descriptor they name. */
  lemma FitsIsAPart(lib: Library, call: Call, res: Resource)
    requires Fits(lib, call, res)
    ensures res in call.r.PartResources()
  {
    var k := SelectedIsAPart(lib, call.r);
  }

  // ------------------------------------------------- effects, seen from one resource

  lemma PrepareEffect(t: Tables, t': Tables, e: Context, r: Request, res: Resource)
    requires PrepareTx(t, e, r) == Applied(t')
    ensures var v, v' := ViewOf(t, res), ViewOf(t', res);
            && v' == v.(capture := v'.capture, attempt := v'.attempt)
            && (res.descriptor.captureId == r.CaptureId() ==>
                  && v'.capture == Some(CaptureRow(r.descriptor, None))
                  && (v.capture.None? || v.capture == v'.capture))
            && (res.descriptor.captureId != r.CaptureId() ==> v'.capture == v.capture)
            && (res == r.ResourceIdentity() ==>
                  v.attempt.None? && v'.attempt == Some(AttemptRow(e.lease, e.proposal, AttemptPrepared)))
            && (res != r.ResourceIdentity() ==> v'.attempt == v.attempt)
    ensures UniqueLeases(t.attempts) ==> UniqueLeases(t'.attempts)
    ensures t'.journal == t.journal
  {
  }

  lemma CommitEffect(t: Tables, t': Tables, e: Context, r: Request, receipt: ObjectReceipt, bytes: Bytes, res: Resource)
    requires CommitTx(t, e, r, receipt, bytes) == Applied(t') && r.selected.Some?
    ensures var v, v' := ViewOf(t, res), ViewOf(t', res);
            && (res != r.ResourceIdentity() ==> v' == v)
            && (res == r.ResourceIdentity() ==>
                  && v'.capture == v.capture && v'.wholeRows == v.wholeRows
                  && v'.stored == Some(ObjectRow(r.CaptureId(), receipt, Some(bytes), e.proposal))
                  && v'.rows == v.rows + [RowOf(e, res)]
                  && (v.attempt.Some? && v.attempt.value.lease == e.lease && v.attempt.value.state == AttemptPrepared ==>
                        v'.attempt == Some(v.attempt.value.(state := AttemptCommitted))))
  {
    RowsForAppend(t.journal, RowOf(e, r.ResourceIdentity()), res);
    RowsForAppend(t.journal, RowOf(e, r.ResourceIdentity()), Whole(res));
  }

  lemma CommitKeys(t: Tables, t': Tables, e: Context, r: Request, receipt: ObjectReceipt, bytes: Bytes)
    requires CommitTx(t, e, r, receipt, bytes) == Applied(t')
    ensures |t.journal| < JOURNAL_CAPACITY && t'.journal == t.journal + [RowOf(e, r.ResourceIdentity())]
    ensures UniqueLeases(t.attempts) ==> UniqueLeases(t'.attempts)
    ensures UniqueJournal(t.journal) ==> UniqueJournal(t'.journal)
  {
  }

  lemma TombstoneEffect(t: Tables, t': Tables, r: Request, c: CancelledResource, res: Resource)
    requires TombstoneTx(t, r, c) == Applied(t')
    ensures var v, v' := ViewOf(t, res), ViewOf(t', res);
            && v' == v.(capture := v'.capture)
            && (res.descriptor.captureId == r.CaptureId() ==>
                  && v'.capture == Some(CaptureRow(r.descriptor, Some(c)))
                  && (v.capture.None? || v.capture == v'.capture || v.capture == Some(CaptureRow(r.descriptor, None))))
            && (res.descriptor.captureId != r.CaptureId() ==> v'.capture == v.capture)
            && (res in r.PartResources() && v.attempt.Some? ==> v.attempt.value.state == AttemptCommitted)
    ensures t' == t.(captures := t'.captures)
  {
    assert !SomePrepared(t, r.PartResources());
  }

  lemma EraseEffect(t: Tables, t': Tables, e: Context, r: Request, res: Resource)
    requires EraseTx(t, e, r) == Applied(t') && r.selected.None?
    ensures var v, v' := ViewOf(t, res), ViewOf(t', res);
            && v' == v.(stored := v'.stored, rows := v'.rows, wholeRows := v'.wholeRows)
            && v'.rows == v.rows + (if res == r.ResourceIdentity() then [RowOf(e, res)] else [])
            && v'.wholeRows == v.wholeRows + (if res.descriptor == r.descriptor then [RowOf(e, Whole(res))] else [])
            && (if res in r.PartResources() && v.stored.Some? && v.stored.value.capture == r.CaptureId()
                then v'.stored == Some(v.stored.value.(body := None)) else v'.stored == v.stored)
    ensures |t.journal| < JOURNAL_CAPACITY && t'.journal == t.journal + [RowOf(e, r.ResourceIdentity())]
    ensures t'.attempts == t.attempts && t'.captures == t.captures
    ensures UniqueJournal(t.journal) ==> UniqueJournal(t'.journal)
  {
    RowsForAppend(t.journal, RowOf(e, r.ResourceIdentity()), res);
    RowsForAppend(t.journal, RowOf(e, r.ResourceIdentity()), Whole(res));
  }

  // ------------------------------------------------- one event, one resource

  lemma PrepareAgrees(t: Tables, t': Tables, call: Call, res: Resource, p: Phase)
    requires Agrees(ViewOf(t, res), res, p) && PrepareTx(t, call.e, call.r) == Applied(t')
    ensures Agrees(ViewOf(t', res), res, PhaseStep(p, Prepare(call), res))
    ensures call.Target() == res ==> p == Untouched
    ensures p.Reserved? ==> PhaseStep(p, Prepare(call), res) == p
  {
    PrepareEffect(t, t', call.e, call.r, res);
  }

  lemma CommitAgrees(t: Tables, t': Tables, call: Call, res: Resource, p: Phase)
    requires Agrees(ViewOf(t, res), res, p) && call.r.selected.Some?
    requires call.Target() == res ==> p == Reserved(call)
    requires CommitTx(t, call.e, call.r, call.r.selected.value, call.bytes) == Applied(t')
    ensures Agrees(ViewOf(t', res), res, PhaseStep(p, Commit(call), res))
  {
    CommitEffect(t, t', call.e, call.r, call.r.selected.value, call.bytes, res);
  }

  lemma TombstoneAgrees(t: Tables, t': Tables, e: Context, r: Request, c: CancelledResource, res: Resource, p: Phase)
    requires Agrees(ViewOf(t, res), res, p) && TombstoneTx(t, r, c) == Applied(t')
    requires p.Reserved? && r.descriptor == res.descriptor ==> res in r.PartResources()
    ensures Agrees(ViewOf(t', res), res, PhaseStep(p, Tombstone(e, r, c), res))
    ensures p.Reserved? ==> r.descriptor != res.descriptor && PhaseStep(p, Tombstone(e, r, c), res) == p
  {
    TombstoneEffect(t, t', r, c, res);
  }

  lemma EraseAgrees(t: Tables, t': Tables, e: Context, r: Request, c: CancelledResource, res: Resource, p: Phase)
    requires Agrees(ViewOf(t, res), res, p) && r.selected.None?
    requires p.Cancelled? && p.kept.Some? && r.descriptor == res.descriptor ==>
               res in r.PartResources() && p.kept.value.r.CaptureId() == r.CaptureId()
    requires SelectCapture(t, r) == Ok(Some(Some(c))) && RowsFor(t.journal, r.ResourceIdentity()) == []
    requires EraseTx(t, e, r) == Applied(t')
    ensures Agrees(ViewOf(t', res), res, PhaseStep(p, Erase(e, r, c), res))
  {
    EraseEffect(t, t', e, r, res);
  }

  lemma SoundKept(lib: Library, s: Store, log: seq<Event>, ev: Event, res: Resource)
    requires Inv(lib, s, log) && Step(lib, s, ev).Some?
    ensures Sound(lib, res, PhaseStep(PhaseOf(log, res), ev, res))
  {
    hide PrepareTx, CommitTx, TombstoneTx, EraseTx, Agrees, Accepted, VerifyReceiptBytes;
    assert Consistent(lib, s.tables, log, res);
    if ev.Commit? {
      assert Consistent(lib, s.tables, log, ev.call.Target());
    }
  }

  lemma AgreesKept(lib: Library, s: Store, log: seq<Event>, ev: Event, res: Resource)
    requires Inv(lib, s, log) && Step(lib, s, ev).Some?
    ensures Agrees(ViewOf(Step(lib, s, ev).value.tables, res), res, PhaseStep(PhaseOf(log, res), ev, res))
    ensures PhaseOf(log, res).Reserved? ==>
              PhaseStep(PhaseOf(log, res), ev, res) in {PhaseOf(log, res), Written(PhaseOf(log, res).call)}
    ensures ev.Prepare? && ev.call.Target() == res ==> PhaseOf(log, res) == Untouched
  {
    hide PrepareTx, CommitTx, TombstoneTx, EraseTx, Accepted, VerifyReceiptBytes, RowsFor, Agrees;
    var t, t', p := s.tables, Step(lib, s, ev).value.tables, PhaseOf(log, res);
    assert Consistent(lib, t, log, res);
    if p.Reserved? {
      FitsIsAPart(lib, p.call, res);
    } else if p.Cancelled? && p.kept.Some? {
      FitsIsAPart(lib, p.kept.value, res);
    }
    match ev
    case Prepare(call) => PrepareAgrees(t, t', call, res, p);
    case Commit(call) => CommitAgrees(t, t', call, res, p);
    case Tombstone(e, r, c) => TombstoneAgrees(t, t', e, r, c, res, p);
    case Erase(e, r, c) => EraseAgrees(t, t', e, r, c, res, p);
    case _ =>
  }

  lemma KeysKept(lib: Library, s: Store, ev: Event)
    requires Step(lib, s, ev).Some?
    requires |s.tables.journal| <= JOURNAL_CAPACITY && UniqueJournal(s.tables.journal) && UniqueLeases(s.tables.attempts)
    ensures var t' := Step(lib, s, ev).value.tables;
            |t'.journal| <= JOURNAL_CAPACITY && UniqueJournal(t'.journal) && UniqueLeases(t'.attempts)
  {
    var t, t' := s.tables, Step(lib, s, ev).value.tables;
    match ev
    case Prepare(call) => PrepareEffect(t, t', call.e, call.r, call.Target());
    case Commit(call) => CommitKeys(t, t', call.e, call.r, call.r.selected.value, call.bytes);
    case Tombstone(e, r, c) => TombstoneEffect(t, t', r, c, r.ResourceIdentity());
    case Erase(e, r, c) => EraseEffect(t, t', e, r, r.ResourceIdentity());
    case _ =>
  }

  lemma InflightKept(lib: Library, s: Store, log: seq<Event>, ev: Event, call: Call)
    requires Inv(lib, s, log) && Step(lib, s, ev).Some? && call in Step(lib, s, ev).value.inflight
    ensures PhaseStep(PhaseOf(log, call.Target()), ev, call.Target()) == Reserved(call)
  {
    hide PrepareTx, CommitTx, TombstoneTx, EraseTx, Agrees, Sound, StageArgs, CleanupArgs;
    AgreesKept(lib, s, log, ev, call.Target());
  }

  /** The step of the invariant proof, at the granularity of single transactions. */
  lemma StepKeeps(lib: Library, s: Store, log: seq<Event>, ev: Event)
    requires Inv(lib, s, log) && Step(lib, s, ev).Some?
    ensures Inv(lib, Step(lib, s, ev).value, log + [ev])
  {
    hide Step, Agrees, Sound;
    var s' := Step(lib, s, ev).value;
    var log' := log + [ev];
    assert log'[..|log'| - 1] == log;
    KeysKept(lib, s, ev);
    forall res ensures Consistent(lib, s'.tables, log', res) {
      AgreesKept(lib, s, log, ev, res);
      SoundKept(lib, s, log, ev, res);
    }
    forall call | call in s'.inflight ensures PhaseOf(log', call.Target()) == Reserved(call) {
      InflightKept(lib, s, log, ev, call);
    }
  }

  lemma InitialHolds(lib: Library)
    ensures Inv(lib, INITIAL, [])
  {
  }

  lemma {:induction false} RunKeeps(lib: Library, log: seq<Event>)
    requires Execute(lib, log).Some?
    ensures Inv(lib, Execute(lib, log).value, log)
  {
    hide Step, Inv;
    if log == [] {
      InitialHolds(lib);
    } else {
      var front := log[..|log| - 1];
      assert log == front + [log[|log| - 1]];
      RunKeeps(lib, front);
      StepKeeps(lib, Execute(lib, front).value, front, log[|log| - 1]);
    }
  }

  lemma RunConsistent(lib: Library, log: seq<Event>, res: Resource)
    requires Execute(lib, log).Some?
    ensures Consistent(lib, Execute(lib, log).value.tables, log, res)
  {
    hide Step, Consistent;
    RunKeeps(lib, log);
  }

  // ------------------------------------------------- what the tables tell

  lemma ViewTells(lib: Library, t: Tables, e: Context, r: Request, p: Phase)
    requires r.Parsed(lib) && e.Matches(r)
    requires Agrees(ViewOf(t, r.ResourceIdentity()), r.ResourceIdentity(), p) && Sound(lib, r.ResourceIdentity(), p)
    ensures Observe(t, e, r) == Report(p, e, r)
  {
    hide Accepted, VerifyReceiptBytes, RowsFor;
    var res := r.ResourceIdentity();
    assert r.selected.None? ==> r == Request(res.descriptor, None);
    match p
    case Written(call) => ResourceNamesRequest(lib, call.r, r);
    case Cancelled(_, Some(call)) => ResourceNamesRequest(lib, call.r, r);
    case Erased(_, _, Some(call)) => ResourceNamesRequest(lib, call.r, r);
    case _ =>
  }

  /** Refinement: after every run, what the four tables say about a resource is what the
      small machine says; in particular they are never found corrupt. */
  lemma ObservationIsThePhase(lib: Library, log: seq<Event>, e: Context, r: Request)
    requires Execute(lib, log).Some? && r.Parsed(lib) && e.Matches(r)
    ensures Observe(Execute(lib, log).value.tables, e, r) == Report(PhaseOf(log, r.ResourceIdentity()), e, r)
    ensures Observe(Execute(lib, log).value.tables, e, r) != Ok(Corrupt)
  {
    hide Step, Observe, Agrees, Sound;
    RunConsistent(lib, log, r.ResourceIdentity());
    ViewTells(lib, Execute(lib, log).value.tables, e, r, PhaseOf(log, r.ResourceIdentity()));
  }

  /** A read answers exactly when the part is written, with the bytes of its one commit. */
  lemma ReadIsTheCommit(lib: Library, log: seq<Event>, e: Context, r: Request, max: nat, bytes: Bytes)
    requires Execute(lib, log).Some? && r.Parsed(lib)
    ensures Read(lib, Execute(lib, log).value.tables, e, r, max) == Ok(bytes) <==>
              var p := PhaseOf(log, r.ResourceIdentity());
              && e.Matches(r) && p.Written? && p.call.e.proposal.MatchesOriginal(e.original)
              && |p.call.bytes| == max && p.call.bytes == bytes
  {
    hide Step, Accepted, RowsFor;
    var t, res := Execute(lib, log).value.tables, r.ResourceIdentity();
    var p := PhaseOf(log, res);
    if e.Matches(r) {
      ObservationIsThePhase(lib, log, e, r);
      RunConsistent(lib, log, res);
      if p.Written? {
        ResourceNamesRequest(lib, p.call.r, r);
      }
    }
  }

  /** Each observation names one phase: the answers and the phases determine each other. */
  lemma ObservationTells(lib: Library, log: seq<Event>, e: Context, r: Request, o: Outcome)
    requires Execute(lib, log).Some? && r.Parsed(lib) && e.Matches(r)
    ensures var seen, p := Observe(Execute(lib, log).value.tables, e, r), PhaseOf(log, r.ResourceIdentity());
            && (seen == Ok(Unseen) <==> p.Untouched? && e.disposition.FencedNoCommit?)
            && (seen == Ok(Unknown) <==> p.Untouched? && e.disposition.ExistingOrUnknown?)
            && (seen == Ok(Prepared) <==> p.Reserved?)
            && (seen == Ok(Durable(o)) <==> p.Written? && p.call.e.proposal == o && o.lineage == e.original)
            && (seen == Ok(CleanupPending) <==> p.Cancelled? || (p.Erased? && r.selected.Some?))
            && (seen == Ok(CancelledCleaned(o)) <==>
                  p.Erased? && r.selected.None? && p.under.proposal == o && o.lineage == e.original)
            && (seen.Err? ==> seen == Err(Conflict))
  {
    hide Execute, Observe, PhaseOf;
    ObservationIsThePhase(lib, log, e, r);
  }

  /** What is stored is what was declared: after every run the bytes of a written part have the
      size and the digest of its receipt and are text, and its outcome is about that receipt. */
  lemma StoredIsDeclared(lib: Library, log: seq<Event>, r: Request)
    requires Execute(lib, log).Some? && r.Parsed(lib) && PhaseOf(log, r.ResourceIdentity()).Written?
    ensures r.selected.Some?
    ensures var call, receipt := PhaseOf(log, r.ResourceIdentity()).call, r.selected.value;
            && |call.bytes| == receipt.sizeBytes && lib.sha256(call.bytes) == receipt.sha256 && lib.utf8(call.bytes)
            && call.e.proposal.DiskStored? && call.e.proposal.objectReceipt == receipt
            && call.e.proposal.lineage.realmId == r.descriptor.realmId
            && call.e.proposal.lineage.intentId == r.descriptor.captureId
            && call.e.proposal.lineage == call.e.original
            && var t := Execute(lib, log).value.tables;
            && r.ResourceIdentity() in t.objects && t.objects[r.ResourceIdentity()].body == Some(call.bytes)
  {
    hide Step, Accepted, VerifyReceiptBytes, RowsFor, Request.VerifyBody;
    var call := PhaseOf(log, r.ResourceIdentity()).call;
    RunConsistent(lib, log, r.ResourceIdentity());
    ResourceNamesRequest(lib, call.r, r);
    BodyAcceptedExactly(lib, r, call.bytes);
  }
}
