/** Cancellation and clean-up over whole runs: which checks can fail, which cannot, and why a
    clean-up can be resumed from any point. */
module Cleanup {
  import opened Results
  import opened Native
  import opened Inventory
  import opened Protocol
  import opened Refinement
  import opened Safety

  /** The part an object row belongs to, from the capture column. */
  lemma ObjectIsAPart(lib: Library, log: seq<Event>, r: Request, res: Resource)
    requires Execute(lib, log).Some? && res in Execute(lib, log).value.tables.objects
    ensures var t := Execute(lib, log).value.tables;
            && t.objects[res].capture == res.descriptor.captureId
            && res in t.attempts && t.attempts[res].state == AttemptCommitted
            && res.descriptor.captureId in t.captures
            && t.captures[res.descriptor.captureId].descriptor == res.descriptor
            && (res.descriptor == r.descriptor ==> res in r.PartResources())
  {
    hide Step, Accepted, VerifyReceiptBytes, RowsFor;
    RunConsistent(lib, log, res);
    var p := PhaseOf(log, res);
    match p
    case Written(call) => FitsIsAPart(lib, call, res);
    case Cancelled(_, Some(call)) => FitsIsAPart(lib, call, res);
    case Erased(_, _, Some(call)) => FitsIsAPart(lib, call, res);
    case _ =>
  }

  /** A cancelled capture has no prepared part, in any run, however the transactions of
      stage and cancellation interleave. */
  lemma CancelledHasNoPrepared(lib: Library, log: seq<Event>, res: Resource)
    requires Execute(lib, log).Some?
    ensures var t := Execute(lib, log).value.tables;
            (&& res in t.attempts && res.descriptor.captureId in t.captures
             && t.captures[res.descriptor.captureId].cancelled.Some?)
            ==> t.attempts[res].state == AttemptCommitted
  {
    hide Step, Sound, RowsFor;
    RunConsistent(lib, log, res);
  }

  /** The second stage transaction can only be stopped by the journal: its capture check
      holds, the object is not there yet, and the update finds the prepared row. */
  lemma CommitStopsOnlyAtTheJournal(lib: Library, log: seq<Event>, call: Call)
    requires Execute(lib, log).Some? && call in Execute(lib, log).value.inflight
    ensures call.r.selected.Some?
    ensures var t, res := Execute(lib, log).value.tables, call.Target();
            && SelectCapture(t, call.r) == Ok(Some(None)) && res !in t.objects
            && res in t.attempts && t.attempts[res] == AttemptRow(call.e.lease, call.e.proposal, AttemptPrepared)
            && var v := CommitTx(t, call.e, call.r, call.r.selected.value, call.bytes);
            && (v == Declined(Backpressure) <==> |t.journal| >= 128)
            && (v == Violated <==> |t.journal| < 128 && !Fresh(t.journal, RowOf(call.e, res)))
            && (v.Applied? <==> |t.journal| < 128 && Fresh(t.journal, RowOf(call.e, res)))
  {
    hide Step, Accepted, VerifyReceiptBytes, Fresh;
    RunKeeps(lib, log);
    RunConsistent(lib, log, call.Target());
  }

  /** The left-over check of the clean-up cannot fail: only the journal can stop it. */
  lemma EraseStopsOnlyAtTheJournal(lib: Library, log: seq<Event>, e: Context, r: Request, c: CancelledResource)
    requires Execute(lib, log).Some?
    requires SelectCapture(Execute(lib, log).value.tables, r) == Ok(Some(Some(c)))
    ensures var t := Execute(lib, log).value.tables;
            && BodiesLeft(EraseBodies(t, r.PartResources(), r.CaptureId()), r.CaptureId()) == {}
            && var v := EraseTx(t, e, r);
            && (v == Declined(Backpressure) <==> |t.journal| >= 128)
            && (v == Violated <==> |t.journal| < 128 && !Fresh(t.journal, RowOf(e, r.ResourceIdentity())))
            && (v.Applied? <==> |t.journal| < 128 && Fresh(t.journal, RowOf(e, r.ResourceIdentity())))
  {
    hide Step, Fresh;
    var t := Execute(lib, log).value.tables;
    forall res | res in t.objects && t.objects[res].capture == r.CaptureId() ensures res in r.PartResources() {
      ObjectIsAPart(lib, log, r, res);
    }
  }

  lemma NothingPrepared(lib: Library, log: seq<Event>, r: Request)
    requires Execute(lib, log).Some?
    ensures HalfWritten(Execute(lib, log).value.tables, r.CaptureId()) == {}
  {
    hide Step;
    var t := Execute(lib, log).value.tables;
    forall res | res in t.objects ensures res in t.attempts && t.attempts[res].state == AttemptCommitted {
      ObjectIsAPart(lib, log, r, res);
    }
  }

  /** Exactly when a cancellation is accepted: no part is between its two transactions (or
      abandoned there), and the capture is not another descriptor's or another cancellation's. */
  lemma TombstoneAcceptedExactly(lib: Library, log: seq<Event>, e: Context, r: Request, c: CancelledResource)
    requires Execute(lib, log).Some? && CleanupArgs(lib, e, r, c)
    ensures Step(lib, Execute(lib, log).value, Tombstone(e, r, c)).Some? <==>
              && (forall res :: res in r.PartResources() ==> !PhaseOf(log, res).Reserved?)
              && var p := PhaseOf(log, r.ResourceIdentity());
                 p == Untouched || ((p.Cancelled? || p.Erased?) && p.c == c)
  {
    hide Accepted, VerifyReceiptBytes, RowsFor, PrepareTx, CommitTx, EraseTx;
    var t := Execute(lib, log).value.tables;
    NothingPrepared(lib, log, r);
    PreparedIsReserved(lib, log, r);
    WholeTells(lib, log, r);
  }

  lemma PreparedIsReserved(lib: Library, log: seq<Event>, r: Request)
    requires Execute(lib, log).Some?
    ensures SomePrepared(Execute(lib, log).value.tables, r.PartResources()) <==>
              exists res :: res in r.PartResources() && PhaseOf(log, res).Reserved?
  {
    hide Step, PhaseOf;
    forall res {
      PreparedOne(lib, log, res);
    }
  }

  lemma PreparedOne(lib: Library, log: seq<Event>, res: Resource)
    requires Execute(lib, log).Some?
    ensures var t := Execute(lib, log).value.tables;
            res in t.attempts && t.attempts[res].state != AttemptCommitted <==> PhaseOf(log, res).Reserved?
  {
    hide Step, Sound, RowsFor;
    RunConsistent(lib, log, res);
  }

  lemma WholeTells(lib: Library, log: seq<Event>, r: Request)
    requires Execute(lib, log).Some? && r.selected.None?
    ensures SelectCapture(Execute(lib, log).value.tables, r) ==
              var p := PhaseOf(log, r.ResourceIdentity());
              if p.Foreign? then Err(Conflict)
              else if p.Cancelled? || p.Erased? then Ok(Some(Some(p.c)))
              else if r.CaptureId() in Execute(lib, log).value.tables.captures then Ok(Some(None))
              else Ok(None)
    ensures PhaseOf(log, r.ResourceIdentity()).Untouched? || PhaseOf(log, r.ResourceIdentity()).Foreign?
            || PhaseOf(log, r.ResourceIdentity()).Cancelled? || PhaseOf(log, r.ResourceIdentity()).Erased?
  {
    hide Step, Accepted, VerifyReceiptBytes, RowsFor;
    RunConsistent(lib, log, r.ResourceIdentity());
  }

  /** Clean-up resumes from every point after the cancellation is durable: cancelling again
      changes nothing; erasing is possible exactly when the journal admits its row, and once it
      happened it does not happen again. */
  lemma CleanupResumes(lib: Library, log: seq<Event>, e: Context, r: Request, c: CancelledResource)
    requires Execute(lib, log).Some? && CleanupArgs(lib, e, r, c)
    requires var p := PhaseOf(log, r.ResourceIdentity());
             (p.Cancelled? || p.Erased?) && p.c == c
    ensures var s := Execute(lib, log).value;
            && Step(lib, s, Tombstone(e, r, c)) == Some(s)
            && (Step(lib, s, Erase(e, r, c)).Some? <==>
                  && PhaseOf(log, r.ResourceIdentity()).Cancelled?
                  && |s.tables.journal| < JOURNAL_CAPACITY && Fresh(s.tables.journal, RowOf(e, r.ResourceIdentity())))
  {
    hide Step, PhaseOf;
    TombstoneAgain(lib, log, e, r, c);
    EraseOnlyOnce(lib, log, e, r, c);
  }

  lemma TombstoneAgain(lib: Library, log: seq<Event>, e: Context, r: Request, c: CancelledResource)
    requires Execute(lib, log).Some? && CleanupArgs(lib, e, r, c)
    requires var p := PhaseOf(log, r.ResourceIdentity());
             (p.Cancelled? || p.Erased?) && p.c == c
    ensures Step(lib, Execute(lib, log).value, Tombstone(e, r, c)) == Execute(lib, log)
  {
    hide PrepareTx, CommitTx, TombstoneTx, EraseTx, Accepted, VerifyReceiptBytes, HalfWritten, SomePrepared, RowsFor;
    WholeTells(lib, log, r);
    NothingPrepared(lib, log, r);
    NonePreparedUnder(lib, log, r, c);
    TombstoneChangesNothing(Execute(lib, log).value.tables, r, c);
  }

  lemma TombstoneChangesNothing(t: Tables, r: Request, c: CancelledResource)
    requires HalfWritten(t, r.CaptureId()) == {} && !SomePrepared(t, r.PartResources())
    requires SelectCapture(t, r) == Ok(Some(Some(c)))
    ensures TombstoneTx(t, r, c) == Applied(t)
  {
    hide HalfWritten, SomePrepared;
  }

  lemma EraseOnlyOnce(lib: Library, log: seq<Event>, e: Context, r: Request, c: CancelledResource)
    requires Execute(lib, log).Some? && CleanupArgs(lib, e, r, c)
    requires var p := PhaseOf(log, r.ResourceIdentity());
             (p.Cancelled? || p.Erased?) && p.c == c
    ensures var s := Execute(lib, log).value;
            Step(lib, s, Erase(e, r, c)).Some? <==>
              && PhaseOf(log, r.ResourceIdentity()).Cancelled?
              && |s.tables.journal| < JOURNAL_CAPACITY && Fresh(s.tables.journal, RowOf(e, r.ResourceIdentity()))
  {
    hide Accepted, VerifyReceiptBytes, EraseTx, EraseBodies, BodiesLeft, Fresh, RowsFor, UniqueJournal, UniqueLeases;
    WholeTells(lib, log, r);
    EraseStopsOnlyAtTheJournal(lib, log, e, r, c);
    JournalIsExact(lib, log, r.ResourceIdentity());
    KeepsNoCall(lib, log, r);
    hide Execute, CleanupArgs, PhaseOf;
  }

  /** A whole capture is never written as one, so nothing of it is kept. */
  lemma KeepsNoCall(lib: Library, log: seq<Event>, r: Request)
    requires Execute(lib, log).Some? && r.selected.None?
    ensures var p := PhaseOf(log, r.ResourceIdentity());
            (p.Cancelled? || p.Erased?) ==> p.kept.None?
  {
    hide Step, RowsFor, Accepted, VerifyReceiptBytes;
    RunConsistent(lib, log, r.ResourceIdentity());
  }

  lemma NonePreparedUnder(lib: Library, log: seq<Event>, r: Request, c: CancelledResource)
    requires Execute(lib, log).Some? && SelectCapture(Execute(lib, log).value.tables, r) == Ok(Some(Some(c)))
    ensures !SomePrepared(Execute(lib, log).value.tables, r.PartResources())
  {
    hide Step;
    forall res | res in r.PartResources() {
      CancelledHasNoPrepared(lib, log, res);
    }
  }

  /** Parts and whole of a capture are cancelled and erased together. */
  lemma {:induction false} CancelledTogether(lib: Library, log: seq<Event>, res: Resource)
    requires Execute(lib, log).Some?
    ensures var p, w := PhaseOf(log, res), PhaseOf(log, Whole(res));
            && (p.Cancelled? <==> w.Cancelled?) && (p.Cancelled? ==> p.c == w.c)
            && (p.Erased? <==> w.Erased?) && (p.Erased? ==> p.c == w.c && p.under == w.under)
  {
    if log != [] {
      hide Step, Inv;
      assert [] + log == log;
      var mid, ev := LastOf(lib, [], log);
      CancelledTogether(lib, mid, res);
      TogetherStep(lib, Execute(lib, mid).value, mid, ev, res);
    }
  }

  lemma TogetherStep(lib: Library, s: Store, log: seq<Event>, ev: Event, res: Resource)
    requires Inv(lib, s, log) && Step(lib, s, ev).Some?
    requires var p, w := PhaseOf(log, res), PhaseOf(log, Whole(res));
             && (p.Cancelled? <==> w.Cancelled?) && (p.Cancelled? ==> p.c == w.c)
             && (p.Erased? <==> w.Erased?) && (p.Erased? ==> p.c == w.c && p.under == w.under)
    ensures var p, w := PhaseStep(PhaseOf(log, res), ev, res), PhaseStep(PhaseOf(log, Whole(res)), ev, Whole(res));
            && (p.Cancelled? <==> w.Cancelled?) && (p.Cancelled? ==> p.c == w.c)
            && (p.Erased? <==> w.Erased?) && (p.Erased? ==> p.c == w.c && p.under == w.under)
  {
    hide Step, Sound, Accepted, VerifyReceiptBytes, RowsFor;
    StepLeads(lib, s, log, ev, res);
    StepLeads(lib, s, log, ev, Whole(res));
    assert Consistent(lib, s.tables, log, Whole(res)) && Consistent(lib, s.tables, log, res);
    hide Inv;
    if ev.Tombstone? && ev.r.descriptor == res.descriptor {
      NotReserved(lib, s, log, ev, res);
      NotReserved(lib, s, log, ev, Whole(res));
    }
  }

  lemma NotReserved(lib: Library, s: Store, log: seq<Event>, ev: Event, res: Resource)
    requires Inv(lib, s, log) && ev.Tombstone? && Step(lib, s, ev).Some? && ev.r.descriptor == res.descriptor
    ensures !PhaseOf(log, res).Reserved? && !PhaseOf(log, res).Foreign?
    ensures PhaseOf(log, res).Cancelled? ==> PhaseOf(log, res).c == ev.c
  {
    hide PrepareTx, CommitTx, TombstoneTx, EraseTx, Accepted, VerifyReceiptBytes, RowsFor;
    assert Consistent(lib, s.tables, log, res);
    TombstoneEffect(s.tables, Step(lib, s, ev).value.tables, ev.r, ev.c, res);
    if PhaseOf(log, res).Reserved? {
      FitsIsAPart(lib, PhaseOf(log, res).call, res);
    }
  }

  /** Once cleaned, always cleaned: in every continuation no object of the capture has bytes,
      and attempts, receipts, outcomes and the cancellation are what they were. */
  lemma CleanedForGood(lib: Library, log: seq<Event>, more: seq<Event>, r: Request)
    requires Execute(lib, log + more).Some? && r.selected.None? && PhaseOf(log, r.ResourceIdentity()).Erased?
    ensures Execute(lib, log).Some?
    ensures var t, u := Execute(lib, log).value.tables, Execute(lib, log + more).value.tables;
            && BodiesLeft(u, r.CaptureId()) == {}
            && PhaseOf(log + more, r.ResourceIdentity()) == PhaseOf(log, r.ResourceIdentity())
            && r.CaptureId() in t.captures && r.CaptureId() in u.captures
            && u.captures[r.CaptureId()] == t.captures[r.CaptureId()]
            && (forall res: Resource :: res.descriptor == r.descriptor ==>
                  && (res in u.attempts <==> res in t.attempts) && (res in t.attempts ==> u.attempts[res] == t.attempts[res])
                  && (res in u.objects <==> res in t.objects) && (res in t.objects ==> u.objects[res] == t.objects[res]))
  {
    hide Step, Accepted, VerifyReceiptBytes;
    PrefixRuns(lib, log, more);
    RunLeads(lib, log, more, r.ResourceIdentity());
    RunConsistent(lib, log, r.ResourceIdentity());
    RunConsistent(lib, log + more, r.ResourceIdentity());
    forall res: Resource | res.descriptor == r.descriptor
      ensures var t, u := Execute(lib, log).value.tables, Execute(lib, log + more).value.tables;
              && (res in u.attempts <==> res in t.attempts) && (res in t.attempts ==> u.attempts[res] == t.attempts[res])
              && (res in u.objects <==> res in t.objects) && (res in t.objects ==> u.objects[res] == t.objects[res])
    {
      ErasedKeeps(lib, log, more, res);
    }
    NoBodies(lib, log + more, r);
  }

  lemma ErasedKeeps(lib: Library, log: seq<Event>, more: seq<Event>, res: Resource)
    requires Execute(lib, log + more).Some? && Execute(lib, log).Some? && PhaseOf(log, Whole(res)).Erased?
    ensures var t, u := Execute(lib, log).value.tables, Execute(lib, log + more).value.tables;
            && (res in u.attempts <==> res in t.attempts) && (res in t.attempts ==> u.attempts[res] == t.attempts[res])
            && (res in u.objects <==> res in t.objects) && (res in t.objects ==> u.objects[res] == t.objects[res])
  {
    hide Step, Sound, RowsFor;
    CancelledTogether(lib, log, res);
    RunLeads(lib, log, more, res);
    RunConsistent(lib, log, res);
    RunConsistent(lib, log + more, res);
  }

  lemma NoBodies(lib: Library, log: seq<Event>, r: Request)
    requires Execute(lib, log).Some? && r.selected.None? && PhaseOf(log, r.ResourceIdentity()).Erased?
    ensures BodiesLeft(Execute(lib, log).value.tables, r.CaptureId()) == {}
  {
    hide Step, Sound, RowsFor;
    var t := Execute(lib, log).value.tables;
    RunConsistent(lib, log, r.ResourceIdentity());
    forall res | res in t.objects && t.objects[res].capture == r.CaptureId() ensures t.objects[res].body.None? {
      ObjectIsAPart(lib, log, r, res);
      assert Whole(res) == r.ResourceIdentity();
      CancelledTogether(lib, log, res);
      RunConsistent(lib, log, res);
    }
  }
}
