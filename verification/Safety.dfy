/** What holds over whole runs: phases never turn back, one write per resource, prepared
    resources that stay prepared, rows that only grow, and the exact journal. */
module Safety {
  import opened Results
  import opened Native
  import opened Inventory
  import opened Protocol
  import opened Refinement

  // ---------------------------------------------------------------- runs and their prefixes

  lemma {:induction false} PrefixRuns(lib: Library, log: seq<Event>, more: seq<Event>)
    requires Execute(lib, log + more).Some?
    ensures Execute(lib, log).Some?
  {
    hide Step;
    if more == [] {
      assert log + more == log;
    } else {
      assert (log + more)[..|log + more| - 1] == log + more[..|more| - 1];
      PrefixRuns(lib, log, more[..|more| - 1]);
    }
  }

  /** Splits the last event off a continued run. */
  lemma LastOf(lib: Library, log: seq<Event>, more: seq<Event>) returns (mid: seq<Event>, ev: Event)
    requires more != [] && Execute(lib, log + more).Some?
    ensures ev == more[|more| - 1] && mid == log + more[..|more| - 1] && log + more == mid + [ev]
    ensures (log + more)[..|log + more| - 1] == mid
    ensures Execute(lib, mid).Some? && Execute(lib, log + more) == Step(lib, Execute(lib, mid).value, ev)
    ensures Inv(lib, Execute(lib, mid).value, mid)
  {
    hide Step, Inv;
    ev := more[|more| - 1];
    mid := log + more[..|more| - 1];
    assert log + more == mid + [ev];
    assert (log + more)[..|log + more| - 1] == mid;
    RunKeeps(lib, mid);
  }

  // ---------------------------------------------------------------- phases never turn back

  predicate Leads(p: Phase, q: Phase) {
    match p
    case Untouched => true
    case Foreign => q == p
    case Reserved(call) => q == p || LeadsFrom(call, q)
    case Written(call) => LeadsFrom(call, q)
    case Cancelled(c, kept) => q == p || (q.Erased? && q.c == c && q.kept == kept)
    case Erased(_, _, _) => q == p
  }

  /** Phases of a part committed by `call`. */
  predicate LeadsFrom(call: Call, q: Phase) {
    q == Written(call) || (q.Cancelled? && q.kept == Some(call)) || (q.Erased? && q.kept == Some(call))
  }

  lemma StepLeads(lib: Library, s: Store, log: seq<Event>, ev: Event, res: Resource)
    requires Inv(lib, s, log) && Step(lib, s, ev).Some?
    ensures Leads(PhaseOf(log, res), PhaseStep(PhaseOf(log, res), ev, res))
  {
    hide CommitTx, Accepted, VerifyReceiptBytes, RowsFor, PrepareTx, TombstoneTx, EraseTx, Sound;
    AgreesKept(lib, s, log, ev, res);
    assert Consistent(lib, s.tables, log, res);
    var t, t', p := s.tables, Step(lib, s, ev).value.tables, PhaseOf(log, res);
    match ev
    case Prepare(call) => PrepareEffect(t, t', call.e, call.r, res);
    case Tombstone(e, r, c) => TombstoneEffect(t, t', r, c, res);
    case _ =>
  }

  lemma {:induction false} RunLeads(lib: Library, log: seq<Event>, more: seq<Event>, res: Resource)
    requires Execute(lib, log + more).Some?
    ensures Leads(PhaseOf(log, res), PhaseOf(log + more, res))
  {
    hide Step, Inv;
    if more == [] {
      assert log + more == log;
    } else {
      var mid, ev := LastOf(lib, log, more);
      RunLeads(lib, log, more[..|more| - 1], res);
      StepLeads(lib, Execute(lib, mid).value, mid, ev, res);
    }
  }

  // ---------------------------------------------------------------- one write per resource

  /** A call between its two transactions prepared in this life of the process. */
  lemma {:induction false} InflightOrigin(lib: Library, log: seq<Event>, call: Call) returns (i: nat)
    requires Execute(lib, log).Some? && call in Execute(lib, log).value.inflight
    ensures i < |log| && log[i] == Prepare(call)
    ensures forall k :: i < k < |log| ==> log[k] != Restart && log[k] != Abandon(call)
  {
    hide PrepareTx, CommitTx, TombstoneTx, EraseTx, StageArgs, CleanupArgs;
    var front, ev := log[..|log| - 1], log[|log| - 1];
    if ev == Prepare(call) {
      i := |log| - 1;
    } else {
      i := InflightOrigin(lib, front, call);
    }
  }

  lemma RunSplits(lib: Library, log: seq<Event>, k: nat, res: Resource)
    requires Execute(lib, log).Some? && k < |log|
    ensures Execute(lib, log[..k]).Some?
    ensures Execute(lib, log[..k + 1]) == Step(lib, Execute(lib, log[..k]).value, log[k])
    ensures Execute(lib, log[..k + 1]).Some? && Inv(lib, Execute(lib, log[..k]).value, log[..k])
    ensures PhaseOf(log[..k + 1], res) == PhaseStep(PhaseOf(log[..k], res), log[k], res)
  {
    hide Step, Inv;
    assert log == log[..k + 1] + log[k + 1..];
    PrefixRuns(lib, log[..k + 1], log[k + 1..]);
    assert log[..k + 1][..k] == log[..k];
    RunKeeps(lib, log[..k]);
  }

  /** At most one write per resource, over any run with restarts: a commit is the second half
      of the one call that prepared the resource, with no restart in between. */
  lemma OneWritePerResource(lib: Library, log: seq<Event>, j: nat) returns (i: nat)
    requires Execute(lib, log).Some? && j < |log| && log[j].Commit?
    ensures i < j && log[i] == Prepare(log[j].call)
    ensures forall k :: i < k < j ==> log[k] != Restart && log[k] != Abandon(log[j].call)
    ensures forall k :: 0 <= k < |log| && log[k].Prepare? && log[k].call.Target() == log[j].call.Target() ==> k == i
    ensures forall k :: 0 <= k < |log| && log[k].Commit? && log[k].call.Target() == log[j].call.Target() ==> k == j
  {
    hide Step, Inv;
    var call := log[j].call;
    RunSplits(lib, log, j, call.Target());
    CommitWasInflight(lib, Execute(lib, log[..j]).value, call);
    i := InflightOrigin(lib, log[..j], call);
    forall k | 0 <= k < |log| && log[k].Prepare? && log[k].call.Target() == call.Target() ensures k == i {
      SamePrepare(lib, log, k, i);
    }
    forall k | 0 <= k < |log| && log[k].Commit? && log[k].call.Target() == call.Target() ensures k == j {
      SameCommit(lib, log, k, j);
    }
  }

  lemma CommitWasInflight(lib: Library, s: Store, call: Call)
    requires Step(lib, s, Commit(call)).Some?
    ensures call in s.inflight
  {
    hide CommitTx;
  }

  lemma BeforePrepare(lib: Library, s: Store, log: seq<Event>, call: Call)
    requires Inv(lib, s, log) && Step(lib, s, Prepare(call)).Some?
    ensures PhaseOf(log, call.Target()) == Untouched
  {
    hide Step, Inv;
    AgreesKept(lib, s, log, Prepare(call), call.Target());
  }

  lemma LeadsBetween(lib: Library, log: seq<Event>, a: nat, b: nat, res: Resource)
    requires a < b <= |log| && Execute(lib, log[..b]).Some?
    ensures Leads(PhaseOf(log[..a + 1], res), PhaseOf(log[..b], res))
  {
    hide Execute, PhaseOf, Leads;
    assert log[..a + 1] + log[a + 1..b] == log[..b];
    RunLeads(lib, log[..a + 1], log[a + 1..b], res);
  }

  lemma SamePrepare(lib: Library, log: seq<Event>, k: nat, i: nat)
    requires Execute(lib, log).Some? && k < |log| && i < |log|
    requires log[k].Prepare? && log[i].Prepare? && log[k].call.Target() == log[i].call.Target()
    ensures k == i
  {
    hide Step, Inv;
    if k != i {
      var a, b := if k < i then k else i, if k < i then i else k;
      RunSplits(lib, log, a, log[a].call.Target());
      RunSplits(lib, log, b, log[a].call.Target());
      BeforePrepare(lib, Execute(lib, log[..b]).value, log[..b], log[b].call);
      LeadsBetween(lib, log, a, b, log[a].call.Target());
    }
  }

  lemma BeforeCommit(lib: Library, s: Store, log: seq<Event>, call: Call)
    requires Inv(lib, s, log) && Step(lib, s, Commit(call)).Some?
    ensures PhaseOf(log, call.Target()) == Reserved(call)
  {
    hide CommitTx;
    CommitWasInflight(lib, s, call);
  }

  lemma SameCommit(lib: Library, log: seq<Event>, k: nat, j: nat)
    requires Execute(lib, log).Some? && k < |log| && j < |log|
    requires log[k].Commit? && log[j].Commit? && log[k].call.Target() == log[j].call.Target()
    ensures k == j
  {
    hide Step, Inv;
    if k != j {
      var a, b := if k < j then k else j, if k < j then j else k;
      RunSplits(lib, log, a, log[a].call.Target());
      RunSplits(lib, log, b, log[a].call.Target());
      BeforeCommit(lib, Execute(lib, log[..b]).value, log[..b], log[b].call);
      LeadsBetween(lib, log, a, b, log[a].call.Target());
    }
  }

  /** A prepared resource whose call is gone stays prepared for good: it is never written,
      never prepared again, and its capture can never be cancelled. */
  lemma {:induction false} PreparedForever(lib: Library, log: seq<Event>, more: seq<Event>, call: Call)
    requires Execute(lib, log + more).Some?
    requires PhaseOf(log, call.Target()) == Reserved(call) && Execute(lib, log).Some?
    requires call !in Execute(lib, log).value.inflight
    ensures PhaseOf(log + more, call.Target()) == Reserved(call)
    ensures call !in Execute(lib, log + more).value.inflight
    ensures forall ev :: ev in more ==>
              && !(ev.Tombstone? && ev.r.descriptor == call.r.descriptor)
              && !((ev.Commit? || ev.Prepare?) && ev.call.Target() == call.Target())
  {
    hide Step, Inv;
    if more == [] {
      assert log + more == log;
    } else {
      var mid, ev := LastOf(lib, log, more);
      PreparedForever(lib, log, more[..|more| - 1], call);
      StuckStep(lib, Execute(lib, mid).value, mid, ev, call);
      assert more == more[..|more| - 1] + [ev];
    }
  }

  lemma StuckStep(lib: Library, s: Store, log: seq<Event>, ev: Event, call: Call)
    requires Inv(lib, s, log) && Step(lib, s, ev).Some?
    requires PhaseOf(log, call.Target()) == Reserved(call) && call !in s.inflight
    ensures PhaseStep(PhaseOf(log, call.Target()), ev, call.Target()) == Reserved(call)
    ensures call !in Step(lib, s, ev).value.inflight
    ensures !(ev.Tombstone? && ev.r.descriptor == call.r.descriptor)
    ensures !((ev.Commit? || ev.Prepare?) && ev.call.Target() == call.Target())
  {
    hide PrepareTx, CommitTx, TombstoneTx, EraseTx, Accepted, VerifyReceiptBytes, RowsFor, Agrees;
    AgreesKept(lib, s, log, ev, call.Target());
    assert Consistent(lib, s.tables, log, call.Target());
    if ev.Tombstone? && ev.r.descriptor == call.r.descriptor {
      FitsIsAPart(lib, call, call.Target());
      TombstoneAgrees(s.tables, Step(lib, s, ev).value.tables, ev.e, ev.r, ev.c, call.Target(), Reserved(call));
    }
  }

  // ---------------------------------------------------------------- rows only grow

  predicate CaptureGrows(a: CaptureRow, b: CaptureRow) {
    a.descriptor == b.descriptor && (a.cancelled.Some? ==> b.cancelled == a.cancelled)
  }

  predicate AttemptGrows(a: AttemptRow, b: AttemptRow) {
    a.lease == b.lease && a.proposal == b.proposal && (b.state == a.state || b.state == AttemptCommitted)
  }

  /** Everything but the bytes is kept; the bytes are kept or removed. */
  predicate ObjectGrows(a: ObjectRow, b: ObjectRow) {
    b == a || b == a.(body := None)
  }

  ghost predicate Grows(t: Tables, u: Tables) {
    && (forall id :: id in t.captures ==> id in u.captures && CaptureGrows(t.captures[id], u.captures[id]))
    && (forall res :: res in t.attempts ==> res in u.attempts && AttemptGrows(t.attempts[res], u.attempts[res]))
    && (forall res :: res in t.objects ==>
          && res in u.objects && ObjectGrows(t.objects[res], u.objects[res])
          && (u.objects[res] != t.objects[res] ==>
                && t.objects[res].capture in u.captures
                && u.captures[t.objects[res].capture].cancelled.Some?))
    && t.journal <= u.journal
  }

  lemma PrepareGrows(t: Tables, t': Tables, e: Context, r: Request)
    requires PrepareTx(t, e, r) == Applied(t')
    ensures Grows(t, t')
  {
  }

  lemma CommitGrows(t: Tables, t': Tables, e: Context, r: Request, receipt: ObjectReceipt, bytes: Bytes)
    requires CommitTx(t, e, r, receipt, bytes) == Applied(t')
    ensures Grows(t, t')
  {
  }

  lemma TombstoneGrows(t: Tables, t': Tables, r: Request, c: CancelledResource)
    requires TombstoneTx(t, r, c) == Applied(t')
    ensures Grows(t, t')
  {
    hide HalfWritten, SomePrepared;
  }

  lemma EraseGrows(t: Tables, t': Tables, e: Context, r: Request, c: CancelledResource)
    requires SelectCapture(t, r) == Ok(Some(Some(c))) && EraseTx(t, e, r) == Applied(t')
    ensures Grows(t, t')
  {
  }

  lemma SameGrows(t: Tables)
    ensures Grows(t, t)
  {
  }

  lemma StepGrows(lib: Library, s: Store, ev: Event)
    requires Step(lib, s, ev).Some?
    ensures Grows(s.tables, Step(lib, s, ev).value.tables)
  {
    hide PrepareTx, CommitTx, TombstoneTx, EraseTx, StageArgs, CleanupArgs, RowsFor, Grows;
    var t, t' := s.tables, Step(lib, s, ev).value.tables;
    match ev
    case Prepare(call) => PrepareGrows(t, t', call.e, call.r);
    case Commit(call) => CommitGrows(t, t', call.e, call.r, call.r.selected.value, call.bytes);
    case Tombstone(e, r, c) => TombstoneGrows(t, t', r, c);
    case Erase(e, r, c) => EraseGrows(t, t', e, r, c);
    case _ => SameGrows(t);
  }

  lemma GrowsTrans(t: Tables, u: Tables, v: Tables)
    requires Grows(t, u) && Grows(u, v)
    ensures Grows(t, v)
  {
  }

  /** Attempts go absent, prepared, committed; a cancellation is set once; bytes only
      disappear, and only under a cancelled capture; journal rows are never touched. */
  lemma {:induction false} RowsOnlyGrow(lib: Library, log: seq<Event>, more: seq<Event>)
    requires Execute(lib, log + more).Some?
    ensures Execute(lib, log).Some? && Grows(Execute(lib, log).value.tables, Execute(lib, log + more).value.tables)
  {
    hide Step, Inv;
    PrefixRuns(lib, log, more);
    if more == [] {
      assert log + more == log;
    } else {
      var mid, ev := LastOf(lib, log, more);
      RowsOnlyGrow(lib, log, more[..|more| - 1]);
      StepGrows(lib, Execute(lib, mid).value, ev);
      GrowsTrans(Execute(lib, log).value.tables, Execute(lib, mid).value.tables, Execute(lib, log + more).value.tables);
    }
  }

  /** The journal rows of a resource in each phase. */
  function Journalled(p: Phase, res: Resource): seq<JournalRow> {
    match p
    case Written(call) => [RowOf(call.e, res)]
    case Cancelled(_, Some(call)) => [RowOf(call.e, res)]
    case Erased(_, under, kept) =>
      if res.part.None? then [RowOf(under, res)]
      else if kept.Some? then [RowOf(kept.value.e, res)]
      else []
    case _ => []
  }

  /** The owner journal: bounded, unique in every key, and one row per resource, which is the
      outcome of the resource's only commit or clean-up. */
  lemma JournalIsExact(lib: Library, log: seq<Event>, res: Resource)
    requires Execute(lib, log).Some?
    ensures var t, p := Execute(lib, log).value.tables, PhaseOf(log, res);
            && |t.journal| <= 128 && UniqueJournal(t.journal) && UniqueLeases(t.attempts)
            && RowsFor(t.journal, res) == Journalled(p, res)
  {
    hide Step, Sound, UniqueJournal, UniqueLeases;
    RunKeeps(lib, log);
    RunConsistent(lib, log, res);
    assert res.part.None? ==> Whole(res) == res;
  }

  lemma FullStep(lib: Library, s: Store, ev: Event)
    requires Step(lib, s, ev).Some? && |s.tables.journal| >= JOURNAL_CAPACITY
    ensures !ev.Commit? && !ev.Erase?
    ensures var t := Step(lib, s, ev).value.tables;
            t.journal == s.tables.journal && t.objects == s.tables.objects
  {
    hide StageArgs, CleanupArgs, RowsFor, HalfWritten, SomePrepared, BodiesLeft, Fresh;
  }

  /** A full journal is final: in no continuation is anything committed or erased. */
  lemma {:induction false} FullJournalIsFinal(lib: Library, log: seq<Event>, more: seq<Event>)
    requires Execute(lib, log).Some? && Execute(lib, log + more).Some?
    requires |Execute(lib, log).value.tables.journal| >= 128
    ensures forall ev :: ev in more ==> !ev.Commit? && !ev.Erase?
    ensures var t, u := Execute(lib, log).value.tables, Execute(lib, log + more).value.tables;
            u.journal == t.journal && u.objects == t.objects
  {
    hide Step, Inv;
    if more == [] {
      assert log + more == log;
    } else {
      var mid, ev := LastOf(lib, log, more);
      FullJournalIsFinal(lib, log, more[..|more| - 1]);
      FullStep(lib, Execute(lib, mid).value, ev);
      assert more == more[..|more| - 1] + [ev];
    }
  }
}
