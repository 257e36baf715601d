/**
 `SqliteBackend` with its failures.  Any query may fail, a failed COMMIT may or may not have
 happened, and a failure leaves the backend uncertain until it is reopened.  The ghost log
 records the transactions that took effect; `Valid` ties the tables to it.
 */
module Backend {
  import opened Results
  import opened Native
  import opened Inventory
  import opened Protocol
  import opened Refinement
  import opened Safety
  import opened Cleanup

  /** What a stage call whose queries all succeed answers, by the phase it finds. */
  function StageAnswer(p: Phase, e: Context, full: bool): Result<Option<Outcome>> {
    match p
    case Untouched =>
      if e.disposition == ExistingOrUnknown then Err(Refusal.Pending)
      else if full then Err(Backpressure)
      else Ok(Some(e.proposal))
    case Reserved(_) => Err(Refusal.Pending)
    case Written(call) =>
      if call.e.proposal.lineage == e.original then Ok(Some(call.e.proposal)) else Err(Conflict)
    case _ => Err(Conflict)
  }

  /** The same for the cancellation … */
  ghost function TombstoneAnswer(log: seq<Event>, r: Request, c: CancelledResource): Result<()> {
    var p := PhaseOf(log, r.ResourceIdentity());
    if exists res :: res in r.PartResources() && PhaseOf(log, res).Reserved? then Err(Refusal.Pending)
    else if p == Untouched || ((p.Cancelled? || p.Erased?) && p.c == c) then Ok(())
    else Err(Conflict)
  }

  /** … and for the clean-up. */
  function CleanupAnswer(p: Phase, e: Context, c: CancelledResource, full: bool): Result<Option<Outcome>> {
    match p
    case Foreign => Err(Conflict)
    case Cancelled(known, _) =>
      if known != c then Err(NotAvailable) else if full then Err(Backpressure) else Ok(Some(e.proposal))
    case Erased(known, under, _) =>
      if known != c then Err(NotAvailable)
      else if under.proposal.lineage == e.original then Ok(Some(under.proposal))
      else Err(Conflict)
    case _ => Err(NotAvailable)
  }

  /** No attempt has this lease, and no journal row this lease, receipt or sequence. */
  ghost predicate FreshKeys(t: Tables, e: Context) {
    Unused(t, e) && forall res :: res in t.attempts ==> t.attempts[res].lease != e.lease
  }

  lemma TombstoneKeepsJournal(t: Tables, r: Request, c: CancelledResource)
    ensures TombstoneTx(t, r, c).Applied? ==> TombstoneTx(t, r, c).tables.journal == t.journal
  {
    hide HalfWritten, SomePrepared;
  }

  lemma EraseNone(t: Tables, capture: Id)
    ensures EraseBodies(t, [], capture) == t
  {
    assert EraseBodies(t, [], capture).objects == t.objects;
  }

  lemma EraseOneMore(t: Tables, keys: seq<Resource>, i: nat, capture: Id)
    requires i < |keys|
    ensures EraseBodies(EraseBodies(t, keys[..i], capture), [keys[i]], capture) == EraseBodies(t, keys[..i + 1], capture)
  {
    assert EraseBodies(EraseBodies(t, keys[..i], capture), [keys[i]], capture).objects
        == EraseBodies(t, keys[..i + 1], capture).objects;
  }

  /** What happens to a query: it succeeds, or it fails, a commit then having happened or not. */
  datatype Weather = Fair | Foul(happened: bool)

  class SqliteBackend {
    const lib: Library
    const weather: nat -> Weather
    var db: Tables
    var uncertain: bool
    var clock: nat
    ghost var log: seq<Event>

    ghost predicate Valid()
      reads this
    {
      Execute(lib, log) == Some(Store(db, {}))
    }

    /** From now on no query fails. */
    ghost predicate Calm()
      reads this
    {
      forall n: nat :: n >= clock ==> weather(n).Fair?
    }

    /** A blank dedicated database. */
    constructor (lib: Library, weather: nat -> Weather)
      ensures Valid() && this.lib == lib && this.weather == weather && db == EMPTY && !uncertain && clock == 0 && log == []
    {
      this.lib := lib;
      this.weather := weather;
      clock := 0;
      db := EMPTY;
      uncertain := false;
      log := [];
    }

    /** The process ends, at any point between calls, and the database is opened again. */
    method Reopen()
      requires Valid()
      modifies this`uncertain, this`log
      ensures Valid() && !uncertain && log == old(log) + [Restart]
    {
      uncertain := false;
      log := log + [Restart];
      assert log[..|log| - 1] == old(log);
    }

    // -------------------------------------------------------------- queries and transactions

    /** One query that reads or changes only what its caller says: it may fail. */
    method Query() returns (q: Result<()>)
      modifies this`uncertain, this`clock
      ensures q.Ok? ==> !old(uncertain) && !uncertain
      ensures q.Err? ==> uncertain
      ensures q == if q.Ok? then Ok(()) else if old(uncertain) then Err(Refusal.Pending) else Err(Unavailable)
      ensures q.Err? <==> old(uncertain) || weather(old(clock)).Foul?
      ensures clock == if old(uncertain) then old(clock) else old(clock) + 1
    {
      if uncertain {
        return Err(Refusal.Pending);
      }
      clock := clock + 1;
      if weather(clock - 1).Foul? {
        uncertain := true;
        return Err(Unavailable);
      }
      return Ok(());
    }

    /** One statement of a transaction body: a violated constraint is a failed query. */
    method Statement(v: Verdict) returns (out: Result<Tables>)
      requires !uncertain
      modifies this`uncertain, this`clock
      ensures out.Ok? ==> !uncertain && v == Applied(out.value)
      ensures out.Err? && !uncertain ==> v == Declined(out.refusal)
      ensures out.Err? && uncertain ==> out.refusal == Unavailable
      ensures clock >= old(clock)
      ensures old(Calm()) && v != Violated ==> !uncertain
    {
      var _ :- Query();
      match v
      case Applied(t) => return Ok(t);
      case Declined(why) => return Err(why);
      case Violated =>
        uncertain := true;
        return Err(Unavailable);
    }

    /** The end of `transaction`: COMMIT, which may fail either way, or ROLLBACK. */
    method Settle(body: Result<Tables>) returns (out: Result<()>, ghost landed: bool)
      requires body.Ok? ==> !uncertain
      modifies this`db, this`uncertain, this`clock
      ensures if landed then body.Ok? && db == body.value else db == old(db)
      ensures out.Ok? ==> out == Ok(()) && landed && !uncertain
      ensures body.Ok? && out.Err? ==> out == Err(Refusal.Pending) && uncertain
      ensures body.Err? ==> out == Err(body.refusal) && !landed
      ensures old(uncertain) ==> uncertain
      ensures clock >= old(clock)
      ensures old(Calm()) && !old(uncertain) ==> !uncertain
      ensures body.Ok? ==> (landed <==> weather(old(clock)) != Foul(false)) && (out.Ok? <==> weather(old(clock)).Fair?)
    {
      landed := false;
      if body.Err? {
        clock := clock + 1;
        if weather(clock - 1).Foul? {
          uncertain := true;
        }
        return Err(body.refusal), landed;
      }
      var q := Query();
      if q.Err? {
        var last := weather(clock - 1);
        if last.Foul? && last.happened {
          db := body.value;
          landed := true;
        }
        return Err(Refusal.Pending), landed;
      }
      db := body.value;
      landed := true;
      return Ok(()), landed;
    }

    method PrepareBody(e: Context, r: Request) returns (out: Result<Tables>)
      requires !uncertain
      modifies this`uncertain, this`clock
      ensures out.Ok? ==> !uncertain && PrepareTx(db, e, r) == Applied(out.value)
      ensures out.Err? && !uncertain ==> PrepareTx(db, e, r) == Declined(out.refusal)
      ensures out != Err(Backpressure)
      ensures out.Err? && uncertain ==> out.refusal == Unavailable
      ensures clock >= old(clock)
      ensures old(Calm()) && PrepareTx(db, e, r) != Violated ==> !uncertain
    {
      var _ :- Query();
      var work := InsertCapture(db, r, None);
      var _ :- Query();
      if SelectCapture(work, r) != Ok(Some(None)) {
        return Err(Conflict);
      }
      out := Statement(InsertAttempt(work, r.ResourceIdentity(), e.lease, e.proposal));
    }

    method CommitBody(e: Context, r: Request, receipt: ObjectReceipt, bytes: Bytes) returns (out: Result<Tables>)
      requires !uncertain
      modifies this`uncertain, this`clock
      ensures out.Ok? ==> !uncertain && CommitTx(db, e, r, receipt, bytes) == Applied(out.value)
      ensures out.Err? && !uncertain ==> CommitTx(db, e, r, receipt, bytes) == Declined(out.refusal)
      ensures out.Err? && uncertain ==> out.refusal == Unavailable
      ensures clock >= old(clock)
      ensures old(Calm()) && CommitTx(db, e, r, receipt, bytes) != Violated ==> !uncertain
    {
      var res := r.ResourceIdentity();
      var _ :- Query();
      if SelectCapture(db, r) != Ok(Some(None)) {
        return Err(Conflict);
      }
      var work :- Statement(InsertObject(db, res, ObjectRow(r.CaptureId(), receipt, Some(bytes), e.proposal)));
      work :- Statement(AppendJournal(work, e, r));
      var _ :- Query();
      return Ok(CommitAttempt(work, res, e.lease));
    }

    method TombstoneBody(r: Request, c: CancelledResource) returns (out: Result<Tables>)
      requires !uncertain
      modifies this`uncertain, this`clock
      ensures out.Ok? ==> !uncertain && TombstoneTx(db, r, c) == Applied(out.value)
      ensures out.Err? && !uncertain ==> TombstoneTx(db, r, c) == Declined(out.refusal)
      ensures out.Err? && uncertain ==> out.refusal == Unavailable
      ensures clock >= old(clock)
      ensures old(Calm()) ==> !uncertain
    {
      var _ :- Query();
      if HalfWritten(db, r.CaptureId()) != {} {
        return Err(Refusal.Pending);
      }
      var keys := r.PartResources();
      for i := 0 to |keys|
        invariant !uncertain && clock >= old(clock)
        invariant forall k :: 0 <= k < i && keys[k] in db.attempts ==> db.attempts[keys[k]].state == AttemptCommitted
      {
        var _ :- Query();
        if keys[i] in db.attempts && db.attempts[keys[i]].state != AttemptCommitted {
          assert SomePrepared(db, keys);
          return Err(Refusal.Pending);
        }
      }
      assert !SomePrepared(db, keys);
      var _ :- Query();
      var work := InsertCapture(db, r, Some(c));
      var _ :- Query();
      match SelectCapture(work, r)
      case Ok(Some(None)) =>
        var _ :- Query();
        return Ok(work.(captures := work.captures[r.CaptureId() := CaptureRow(r.descriptor, Some(c))]));
      case Ok(Some(Some(known))) =>
        if known == c {
          return Ok(work);
        }
        return Err(Conflict);
      case _ => return Err(Conflict);
    }

    method EraseBody(e: Context, r: Request) returns (out: Result<Tables>)
      requires !uncertain
      modifies this`uncertain, this`clock
      ensures out.Ok? ==> !uncertain && EraseTx(db, e, r) == Applied(out.value)
      ensures out.Err? && !uncertain ==> EraseTx(db, e, r) == Declined(out.refusal)
      ensures out.Err? && uncertain ==> out.refusal == Unavailable
      ensures clock >= old(clock)
      ensures old(Calm()) && EraseTx(db, e, r) != Violated ==> !uncertain
    {
      hide EraseBodies;
      var keys := r.PartResources();
      var work := db;
      EraseNone(db, r.CaptureId());
      for i := 0 to |keys|
        invariant !uncertain && clock >= old(clock)
        invariant work == EraseBodies(db, keys[..i], r.CaptureId())
      {
        var _ :- Query();
        EraseOneMore(db, keys, i, r.CaptureId());
        work := EraseBodies(work, [keys[i]], r.CaptureId());
      }
      assert keys[..|keys|] == keys;
      var _ :- Query();
      if BodiesLeft(work, r.CaptureId()) != {} {
        return Err(Conflict);
      }
      out := Statement(AppendJournal(work, e, r));
    }

    // -------------------------------------------------------------- context operations

    /** `observe_context`.  Its queries only read, so one that fails stands for any of them. */
    method ObserveContext(e: Context, r: Request) returns (out: Result<Observation>)
      modifies this`uncertain, this`clock
      ensures uncertain ==> out.Err?
      ensures !uncertain ==> !old(uncertain) && out == Observe(db, e, r)
      ensures !e.Matches(r) ==> out == Err(NotAvailable) && uncertain == old(uncertain)
      ensures out != Err(Backpressure)
      ensures clock >= old(clock)
      ensures old(Calm()) && !old(uncertain) ==> !uncertain
    {
      if !e.Matches(r) {
        return Err(NotAvailable);
      }
      var _ :- Query();
      return Observe(db, e, r);
    }

    /** `read_context`. */
    method ReadContext(e: Context, r: Request, max: nat) returns (out: Result<Bytes>)
      requires Valid() && r.Parsed(lib)
      modifies this`uncertain, this`clock
      ensures uncertain ==> out.Err?
      ensures !uncertain ==> !old(uncertain) && out == Read(lib, db, e, r, max)
      ensures out.Ok? ==>
                var p := PhaseOf(log, r.ResourceIdentity());
                p.Written? && p.call.bytes == out.value && p.call.e.proposal.MatchesOriginal(e.original)
      ensures out != Err(Backpressure)
      ensures !e.Matches(r) ==> out == Err(NotAvailable) && uncertain == old(uncertain)
      ensures clock >= old(clock)
      ensures old(Calm()) && !old(uncertain) ==> !uncertain
    {
      if !e.Matches(r) {
        return Err(NotAvailable);
      }
      var _ :- Query();
      out := Read(lib, db, e, r, max);
      if out.Ok? {
        ReadIsTheCommit(lib, log, e, r, max, out.value);
      }
    }

    method PrepareTransaction(e: Context, r: Request) returns (out: Result<()>, ghost landed: bool)
      modifies this`db, this`uncertain, this`clock
      ensures if landed then PrepareTx(old(db), e, r) == Applied(db) else db == old(db)
      ensures out.Ok? ==> landed && !uncertain
      ensures landed && out.Err? ==> uncertain
      ensures !uncertain && out.Err? ==> PrepareTx(old(db), e, r) == Declined(out.refusal)
      ensures out != Err(Backpressure)
      ensures old(uncertain) ==> uncertain && out.Err? && !landed
      ensures clock >= old(clock)
      ensures old(Calm()) && !old(uncertain) && PrepareTx(old(db), e, r) != Violated ==> !uncertain
    {
      landed := false;
      out := Query();
      if out.Ok? {
        var body := PrepareBody(e, r);
        out, landed := Settle(body);
      }
    }

    method CommitTransaction(e: Context, r: Request, receipt: ObjectReceipt, bytes: Bytes)
      returns (out: Result<()>, ghost landed: bool)
      modifies this`db, this`uncertain, this`clock
      ensures if landed then CommitTx(old(db), e, r, receipt, bytes) == Applied(db) else db == old(db)
      ensures out.Ok? ==> landed && !uncertain
      ensures landed && out.Err? ==> uncertain && out.refusal == Refusal.Pending
      ensures !uncertain && out.Err? ==> CommitTx(old(db), e, r, receipt, bytes) == Declined(out.refusal)
      ensures out.Err? && out.refusal !in {Refusal.Pending, Unavailable} ==>
                CommitTx(old(db), e, r, receipt, bytes) == Declined(out.refusal)
      ensures old(uncertain) ==> uncertain && out.Err? && !landed
      ensures clock >= old(clock)
      ensures old(Calm()) && !old(uncertain) && CommitTx(old(db), e, r, receipt, bytes) != Violated ==> !uncertain
    {
      landed := false;
      out := Query();
      if out.Ok? {
        var body := CommitBody(e, r, receipt, bytes);
        out, landed := Settle(body);
      }
    }

    /** The two transactions of a fresh stage.  They add both of their events to the log, or the
        first, or none. */
    method StageFresh(e: Context, r: Request, receipt: ObjectReceipt, bytes: Bytes) returns (out: Result<Option<Outcome>>)
      requires Valid() && StageArgs(lib, Call(e, r, bytes)) && r.selected == Some(receipt)
      requires PhaseOf(log, r.ResourceIdentity()) == Untouched && e.disposition == FencedNoCommit
      modifies this
      ensures Valid()
      ensures var call := Call(e, r, bytes);
              log in {old(log), old(log) + [Prepare(call), Abandon(call)], old(log) + [Prepare(call), Commit(call)]}
      ensures log == old(log) ==> db == old(db) && out.Err? && uncertain
      ensures out.Ok? && out.value.Some? ==>
                && !uncertain && out.value.value == e.proposal
                && log == old(log) + [Prepare(Call(e, r, bytes)), Commit(Call(e, r, bytes))]
                && PhaseOf(log, r.ResourceIdentity()) == Written(Call(e, r, bytes))
      ensures out == Ok(None) ==> uncertain && log != old(log)
      ensures out.Err? && !uncertain ==> out == Err(Backpressure)
      ensures out == Err(Backpressure) ==>
                && log == old(log) + [Prepare(Call(e, r, bytes)), Abandon(Call(e, r, bytes))]
                && |db.journal| >= JOURNAL_CAPACITY && db.journal == old(db.journal) && db.objects == old(db.objects)
      ensures !uncertain ==> out == StageAnswer(Untouched, e, |old(db.journal)| >= JOURNAL_CAPACITY)
      ensures old(uncertain) ==> out.Err? && log == old(log) && uncertain
      ensures clock >= old(clock)
      ensures old(Calm()) && !old(uncertain) && FreshKeys(old(db), e) ==> !uncertain
    {
      hide Execute, PrepareTx, CommitTx, StageArgs, PhaseOf, Unused;
      UntouchedPrepares(lib, log, e, r);
      var prepared, landed := PrepareTransaction(e, r);
      ghost var call := Call(e, r, bytes);
      if prepared.Err? {
        if landed {
          PreparedThenLost(lib, old(log), call, old(db), db);
          log := old(log) + [Prepare(call), Abandon(call)];
        }
        return Err(prepared.refusal);
      }
      PreparedNow(lib, old(log), call, old(db), db);
      ghost var middle := db;
      var committed, both := CommitTransaction(e, r, receipt, bytes);
      if both {
        CommittedNow(lib, old(log), call, middle, db);
        log := old(log) + [Prepare(call), Commit(call)];
      } else {
        PreparedThenLost(lib, old(log), call, old(db), db);
        log := old(log) + [Prepare(call), Abandon(call)];
      }
      if committed.Ok? {
        return Ok(Some(e.proposal));
      } else if committed.refusal == Refusal.Pending || committed.refusal == Unavailable {
        return Ok(None);
      } else {
        return Err(committed.refusal);
      }
    }

    /** `stage_context`.  It adds both of its transactions to the log, or the first, or
        nothing; and nothing at all once the resource has left its first phase. */
    method StageContext(e: Context, r: Request, bytes: Bytes) returns (out: Result<Option<Outcome>>)
      requires Valid() && r.Parsed(lib)
      modifies this
      ensures Valid()
      ensures var call := Call(e, r, bytes);
              && log in {old(log), old(log) + [Prepare(call), Abandon(call)], old(log) + [Prepare(call), Commit(call)]}
              && (log != old(log) ==> PhaseOf(old(log), call.Target()) == Untouched && e.disposition == FencedNoCommit)
      ensures log == old(log) ==> db == old(db)
      ensures out.Ok? && out.value.Some? ==>
                var p := PhaseOf(log, r.ResourceIdentity());
                && !uncertain && p.Written? && p.call.e.proposal == out.value.value
                && out.value.value.MatchesOriginal(e.original)
                && (log != old(log) ==> p.call == Call(e, r, bytes))
      ensures out == Ok(None) ==> uncertain && log != old(log)
      ensures log != old(log) && log[|log| - 1].Abandon? && !uncertain ==> out == Err(Backpressure)
      ensures out == Err(Backpressure) ==>
                && log == old(log) + [Prepare(Call(e, r, bytes)), Abandon(Call(e, r, bytes))]
                && |db.journal| >= JOURNAL_CAPACITY && db.journal == old(db.journal) && db.objects == old(db.objects)
      ensures !uncertain && StageArgs(lib, Call(e, r, bytes)) ==>
                out == StageAnswer(PhaseOf(old(log), r.ResourceIdentity()), e, |old(db.journal)| >= JOURNAL_CAPACITY)
      ensures old(uncertain) ==> out.Err? && log == old(log) && uncertain
      ensures !StageArgs(lib, Call(e, r, bytes)) ==> out.Err? && log == old(log) && uncertain == old(uncertain)
      ensures clock >= old(clock)
      ensures old(Calm()) && !old(uncertain) && (PhaseOf(old(log), r.ResourceIdentity()).Untouched? ==> FreshKeys(old(db), e)) ==> !uncertain
    {
      hide Execute, VerifyReceiptBytes, Accepted, Observe, Read, PhaseOf;
      if !e.Matches(r) {
        return Err(NotAvailable);
      }
      var _ :- r.VerifyBody(lib, bytes);
      var receipt :- e.proposal.Receipt(r);
      if !e.proposal.MatchesOperation(Stage) {
        return Err(Conflict);
      }
      ObservationIsThePhase(lib, log, e, r);
      var seen :- ObserveContext(e, r);
      match seen
      case Durable(o) =>
        WrittenReads(lib, log, e, r);
        var _ :- ReadContext(e, r, receipt.sizeBytes);
        return Ok(Some(o));
      case Unseen =>
        assert PhaseOf(log, r.ResourceIdentity()) == Untouched && e.disposition == FencedNoCommit;
        out := StageFresh(e, r, receipt, bytes);
      case Prepared => return Err(Refusal.Pending);
      case Unknown => return Err(Refusal.Pending);
      case _ => return Err(Conflict);
    }

    method TombstoneTransaction(r: Request, c: CancelledResource) returns (out: Result<()>, ghost landed: bool)
      modifies this`db, this`uncertain, this`clock
      ensures db.journal == old(db.journal)
      ensures if landed then TombstoneTx(old(db), r, c) == Applied(db) else db == old(db)
      ensures out.Ok? ==> out == Ok(()) && landed && !uncertain
      ensures landed && out.Err? ==> uncertain
      ensures !uncertain && out.Err? ==> TombstoneTx(old(db), r, c) == Declined(out.refusal)
      ensures old(uncertain) ==> uncertain && out.Err? && !landed
      ensures clock >= old(clock)
      ensures old(Calm()) && !old(uncertain) ==> !uncertain
    {
      landed := false;
      out := Query();
      if out.Ok? {
        var body := TombstoneBody(r, c);
        TombstoneKeepsJournal(db, r, c);
        out, landed := Settle(body);
      }
    }

    method EraseTransaction(e: Context, r: Request) returns (out: Result<()>, ghost landed: bool)
      modifies this`db, this`uncertain, this`clock
      ensures if landed then EraseTx(old(db), e, r) == Applied(db) else db == old(db)
      ensures out.Ok? ==> landed && !uncertain
      ensures landed && out.Err? ==> uncertain && out.refusal == Refusal.Pending
      ensures !uncertain && out.Err? ==> EraseTx(old(db), e, r) == Declined(out.refusal)
      ensures out.Err? && out.refusal !in {Refusal.Pending, Unavailable} ==> EraseTx(old(db), e, r) == Declined(out.refusal)
      ensures old(uncertain) ==> uncertain && out.Err? && !landed
      ensures clock >= old(clock)
      ensures old(Calm()) && !old(uncertain) && EraseTx(old(db), e, r) != Violated ==> !uncertain
    {
      landed := false;
      out := Query();
      if out.Ok? {
        var body := EraseBody(e, r);
        out, landed := Settle(body);
      }
    }

    /** `tombstone_context`. */
    method TombstoneContext(e: Context, r: Request, objects: seq<ObjectKey>, c: CancelledResource) returns (out: Result<()>)
      requires Valid() && r.Parsed(lib)
      modifies this
      ensures Valid()
      ensures log == old(log) || log == old(log) + [Tombstone(e, r, c)]
      ensures log == old(log) ==> db == old(db)
      ensures out.Ok? ==> !uncertain && log == old(log) + [Tombstone(e, r, c)]
      ensures !uncertain && out.Err? ==> log == old(log)
      ensures !uncertain && CleanupArgs(lib, e, r, c) && c.Objects(r) == Ok(objects) ==>
                out == TombstoneAnswer(old(log), r, c)
      ensures db.journal == old(db.journal)
      ensures old(uncertain) ==> out.Err? && log == old(log) && uncertain
      ensures !CleanupArgs(lib, e, r, c) || c.Objects(r) != Ok(objects) ==> out.Err? && log == old(log) && uncertain == old(uncertain)
      ensures clock >= old(clock)
      ensures old(Calm()) && !old(uncertain) ==> !uncertain
    {
      hide Step, Inv, TombstoneTx, Accepted, Agrees, Sound;
      if !e.Matches(r) {
        return Err(NotAvailable);
      }
      var expected :- c.Objects(r);
      if expected != objects {
        return Err(NotAvailable);
      }
      var _ :- c.VerifyCleaned(r, e.proposal);
      TombstoneRuns(lib, log, e, r, c);
      ghost var landed;
      out, landed := TombstoneTransaction(r, c);
      if landed {
        log := log + [Tombstone(e, r, c)];
      }
    }

    /** `cleanup_context`. */
    method CleanupContext(e: Context, r: Request, objects: seq<ObjectKey>, c: CancelledResource)
      returns (out: Result<Option<Outcome>>)
      requires Valid() && r.Parsed(lib)
      modifies this
      ensures Valid()
      ensures log == old(log) || log == old(log) + [Erase(e, r, c)]
      ensures log == old(log) ==> db == old(db)
      ensures out.Ok? && out.value.Some? ==>
                var p := PhaseOf(log, r.ResourceIdentity());
                && !uncertain && p.Erased? && p.c == c && p.under.proposal == out.value.value
                && out.value.value.MatchesOriginal(e.original)
      ensures out == Ok(None) ==> uncertain
      ensures !uncertain && out.Err? ==> log == old(log)
      ensures !uncertain && CleanupArgs(lib, e, r, c) && c.Objects(r) == Ok(objects) ==>
                out == CleanupAnswer(PhaseOf(old(log), r.ResourceIdentity()), e, c, |old(db.journal)| >= JOURNAL_CAPACITY)
      ensures old(uncertain) ==> out.Err? && log == old(log) && uncertain
      ensures !CleanupArgs(lib, e, r, c) || c.Objects(r) != Ok(objects) ==> out.Err? && log == old(log) && uncertain == old(uncertain)
      ensures clock >= old(clock)
      ensures old(Calm()) && !old(uncertain) && (PhaseOf(old(log), r.ResourceIdentity()).Cancelled? ==> Unused(old(db), e)) ==> !uncertain
    {
      hide Step, Inv, EraseTx, Accepted, Agrees, RowsFor, Unused, SelectCapture;
      if !e.Matches(r) {
        return Err(NotAvailable);
      }
      var expected :- c.Objects(r);
      if expected != objects {
        return Err(NotAvailable);
      }
      var _ :- c.VerifyCleaned(r, e.proposal);
      var _ :- Query();
      WholeTells(lib, log, r);
      EraseRuns(lib, log, e, r, c);
      var capture :- SelectCapture(db, r);
      if capture != Some(Some(c)) {
        return Err(NotAvailable);
      }
      var _ :- Query();
      var existing := RowsFor(db.journal, r.ResourceIdentity());
      if |existing| > 1 {
        return Err(Unavailable);
      }
      if |existing| == 1 {
        var o := existing[0].outcome;
        if c.VerifyCleaned(r, o).Err? {
          return Err(NotAvailable);
        }
        if !o.MatchesOriginal(e.original) {
          return Err(Conflict);
        }
        return Ok(Some(o));
      }
      var erased, landed := EraseTransaction(e, r);
      if landed {
        log := log + [Erase(e, r, c)];
      }
      if erased.Ok? {
        return Ok(Some(e.proposal));
      } else if erased.refusal == Refusal.Pending || erased.refusal == Unavailable {
        return Ok(None);
      } else {
        return Err(erased.refusal);
      }
    }
  }

  // ---------------------------------------------------------------- what the phases guarantee

  lemma UntouchedPrepares(lib: Library, log: seq<Event>, e: Context, r: Request)
    requires Execute(lib, log).Some? && PhaseOf(log, r.ResourceIdentity()) == Untouched
    ensures !PrepareTx(Execute(lib, log).value.tables, e, r).Declined?
    ensures FreshKeys(Execute(lib, log).value.tables, e) ==> PrepareTx(Execute(lib, log).value.tables, e, r).Applied?
  {
    hide Step, Accepted, RowsFor;
    RunConsistent(lib, log, r.ResourceIdentity());
  }

  lemma WrittenReads(lib: Library, log: seq<Event>, e: Context, r: Request)
    requires Execute(lib, log).Some? && r.Parsed(lib) && e.Matches(r) && PhaseOf(log, r.ResourceIdentity()).Written?
    requires PhaseOf(log, r.ResourceIdentity()).call.e.proposal.MatchesOriginal(e.original)
    ensures r.selected.Some?
    ensures Read(lib, Execute(lib, log).value.tables, e, r, r.selected.value.sizeBytes).Ok?
  {
    hide Step, Agrees, Accepted, Read;
    var p := PhaseOf(log, r.ResourceIdentity());
    RunConsistent(lib, log, r.ResourceIdentity());
    ResourceNamesRequest(lib, p.call.r, r);
    ReadIsTheCommit(lib, log, e, r, r.selected.value.sizeBytes, p.call.bytes);
  }

  lemma TombstoneRuns(lib: Library, log: seq<Event>, e: Context, r: Request, c: CancelledResource)
    requires Execute(lib, log).Some? && CleanupArgs(lib, e, r, c)
    ensures var s := Execute(lib, log).value;
            var v := TombstoneTx(s.tables, r, c);
            && (v.Applied? ==> Execute(lib, log + [Tombstone(e, r, c)]) == Some(s.(tables := v.tables)))
            && (v.Applied? <==> TombstoneAnswer(log, r, c).Ok?)
            && (v.Declined? ==> TombstoneAnswer(log, r, c) == Err(v.why))
            && v != Violated
  {
    hide Accepted, VerifyReceiptBytes, RowsFor;
    RunExtends(lib, log, Tombstone(e, r, c), r.ResourceIdentity());
    TombstoneAcceptedExactly(lib, log, e, r, c);
    NothingPrepared(lib, log, r);
    PreparedIsReserved(lib, log, r);
  }

  lemma EraseRuns(lib: Library, log: seq<Event>, e: Context, r: Request, c: CancelledResource)
    requires Execute(lib, log).Some? && CleanupArgs(lib, e, r, c)
    ensures var s, res := Execute(lib, log).value, r.ResourceIdentity();
            var p, v := PhaseOf(log, res), EraseTx(s.tables, e, r);
            && (SelectCapture(s.tables, r) == Ok(Some(Some(c))) ==>
                  && (p.Cancelled? || p.Erased?) && p.c == c
                  && RowsFor(s.tables.journal, res) == (if p.Erased? then [RowOf(p.under, res)] else [])
                  && (p.Erased? ==> c.VerifyCleaned(r, p.under.proposal).Ok?)
                  && (v.Declined? ==> v.why == Backpressure)
                  && (v == Declined(Backpressure) <==> |s.tables.journal| >= JOURNAL_CAPACITY)
                  && (Unused(s.tables, e) ==> v != Violated))
            && (SelectCapture(s.tables, r) == Ok(Some(Some(c))) && p.Cancelled? && v.Applied? ==>
                  && Execute(lib, log + [Erase(e, r, c)]) == Some(s.(tables := v.tables))
                  && PhaseOf(log + [Erase(e, r, c)], res) == Erased(c, e, p.kept))
  {
    hide Accepted, VerifyReceiptBytes, Fresh, EraseTx, RowsFor;
    RunExtends(lib, log, Erase(e, r, c), r.ResourceIdentity());
    WholeTells(lib, log, r);
    RunConsistent(lib, log, r.ResourceIdentity());
    assert r == Request(r.descriptor, None);
    if SelectCapture(Execute(lib, log).value.tables, r) == Ok(Some(Some(c))) {
      EraseStopsOnlyAtTheJournal(lib, log, e, r, c);
      JournalIsExact(lib, log, r.ResourceIdentity());
      UnusedIsFresh(Execute(lib, log).value.tables, e, r.ResourceIdentity());
    }
  }

  // ---------------------------------------------------------------- the log of one stage call

  lemma PreparedNow(lib: Library, log: seq<Event>, call: Call, t: Tables, t': Tables)
    requires Execute(lib, log) == Some(Store(t, {})) && StageArgs(lib, call)
    requires PrepareTx(t, call.e, call.r) == Applied(t')
    ensures Execute(lib, log + [Prepare(call)]) == Some(Store(t', {call}))
    ensures call.r.selected.Some?
    ensures var v := CommitTx(t', call.e, call.r, call.r.selected.value, call.bytes);
            && (v.Declined? ==> v == Declined(Backpressure) && |t'.journal| >= JOURNAL_CAPACITY)
            && (v.Applied? ==> |t'.journal| < JOURNAL_CAPACITY)
            && t'.journal == t.journal && t'.objects == t.objects
            && (Unused(t, call.e) ==> v != Violated)
  {
    hide Accepted, VerifyReceiptBytes, CommitTx;
    UnusedIsFresh(t, call.e, call.Target());
    hide Unused, Fresh;
    RunExtends(lib, log, Prepare(call), call.Target());
    assert {} + {call} == {call};
    CommitStopsOnlyAtTheJournal(lib, log + [Prepare(call)], call);
  }

  lemma PreparedThenLost(lib: Library, log: seq<Event>, call: Call, t: Tables, t': Tables)
    requires Execute(lib, log) == Some(Store(t, {})) && StageArgs(lib, call)
    requires PrepareTx(t, call.e, call.r) == Applied(t')
    ensures Execute(lib, log + [Prepare(call), Abandon(call)]) == Some(Store(t', {}))
  {
    hide PrepareTx, StageArgs;
    RunExtends(lib, log, Prepare(call), call.Target());
    RunExtends(lib, log + [Prepare(call)], Abandon(call), call.Target());
    assert log + [Prepare(call)] + [Abandon(call)] == log + [Prepare(call), Abandon(call)];
  }

  lemma CommittedNow(lib: Library, log: seq<Event>, call: Call, t: Tables, t': Tables)
    requires Execute(lib, log + [Prepare(call)]) == Some(Store(t, {call})) && call.r.selected.Some?
    requires CommitTx(t, call.e, call.r, call.r.selected.value, call.bytes) == Applied(t')
    ensures Execute(lib, log + [Prepare(call), Commit(call)]) == Some(Store(t', {}))
    ensures PhaseOf(log + [Prepare(call), Commit(call)], call.Target()) == Written(call)
  {
    hide CommitTx;
    assert {call} - {call} == {};
    RunExtends(lib, log + [Prepare(call)], Commit(call), call.Target());
    assert log + [Prepare(call)] + [Commit(call)] == log + [Prepare(call), Commit(call)];
  }
}
