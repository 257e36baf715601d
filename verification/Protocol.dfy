/**
 Runs of the store as the sequence of transactions that took effect, with restarts between
 them, and the small machine each resource goes through.  The phase machine reads events
 only; `Agrees` says what the four tables hold in each phase, and the invariant is that
 they do so for every resource after every run.
 */
module Protocol {
  import opened Results
  import opened Native
  import opened Inventory

  /** One call of `stage_context`. */
  datatype Call = Call(e: Context, r: Request, bytes: Bytes) {
    function Target(): Resource {
      r.ResourceIdentity()
    }
  }

  datatype Event =
    | Prepare(call: Call)
    | Commit(call: Call)
    | Abandon(call: Call)
    | Tombstone(e: Context, r: Request, c: CancelledResource)
    | Erase(e: Context, r: Request, c: CancelledResource)
    | Restart

  /** The tables, and the calls that are between their two transactions. */
  datatype Store = Store(tables: Tables, inflight: set<Call>)

  /** The argument checks of `stage_context`. */
  ghost predicate StageArgs(lib: Library, call: Call) {
    && call.r.Parsed(lib)
    && call.e.Matches(call.r)
    && call.r.VerifyBody(lib, call.bytes).Ok?
    && call.e.proposal.Receipt(call.r).Ok?
    && call.e.proposal.MatchesOperation(Stage)
  }

  /** The argument checks of `tombstone_context` and `cleanup_context`. */
  ghost predicate CleanupArgs(lib: Library, e: Context, r: Request, c: CancelledResource) {
    r.Parsed(lib) && e.Matches(r) && c.Validate(r) && c.VerifyCleaned(r, e.proposal).Ok?
  }

  /** Calls of stage and cancellation may interleave between transactions; a clean-up reads
      its guards and runs its transaction with nothing in between. */
  ghost function Step(lib: Library, s: Store, ev: Event): Option<Store> {
    match ev
    case Prepare(call) =>
      (match PrepareTx(s.tables, call.e, call.r)
       case Applied(t) => if StageArgs(lib, call) then Some(Store(t, s.inflight + {call})) else None
       case _ => None)
    case Commit(call) =>
      if call !in s.inflight || call.r.selected.None? then None
      else
        (match CommitTx(s.tables, call.e, call.r, call.r.selected.value, call.bytes)
         case Applied(t) => Some(Store(t, s.inflight - {call}))
         case _ => None)
    case Abandon(call) => Some(s.(inflight := s.inflight - {call}))
    case Tombstone(e, r, c) =>
      (match TombstoneTx(s.tables, r, c)
       case Applied(t) => if CleanupArgs(lib, e, r, c) then Some(s.(tables := t)) else None
       case _ => None)
    case Erase(e, r, c) =>
      if SelectCapture(s.tables, r) != Ok(Some(Some(c))) || RowsFor(s.tables.journal, r.ResourceIdentity()) != []
      then None
      else
        (match EraseTx(s.tables, e, r)
         case Applied(t) => if CleanupArgs(lib, e, r, c) then Some(s.(tables := t)) else None
         case _ => None)
    case Restart => Some(s.(inflight := {}))
  }

  const INITIAL := Store(EMPTY, {})

  /** The store after a run from the empty database, if every event of the run could happen. */
  ghost function Execute(lib: Library, log: seq<Event>): Option<Store> {
    if log == [] then Some(INITIAL)
    else
      match Execute(lib, log[..|log| - 1])
      case None => None
      case Some(s) => Step(lib, s, log[|log| - 1])
  }

  // ---------------------------------------------------------------- the phase machine

  datatype Phase =
    | Untouched
    | Foreign
    | Reserved(call: Call)
    | Written(call: Call)
    | Cancelled(c: CancelledResource, kept: Option<Call>)
    | Erased(c: CancelledResource, under: Context, kept: Option<Call>)

  function PhaseStep(p: Phase, ev: Event, res: Resource): Phase {
    match ev
    case Prepare(call) =>
      if call.Target() == res then Reserved(call) else Claimed(p, call.r, res)
    case Commit(call) =>
      if call.Target() == res then Written(call) else p
    case Tombstone(_, r, c) =>
      if r.descriptor != res.descriptor then Claimed(p, r, res)
      else
        (match p
         case Written(call) => Cancelled(c, Some(call))
         case Untouched => Cancelled(c, None)
         case _ => p)
    case Erase(e, r, c) =>
      if r.descriptor == res.descriptor && p.Cancelled? then Erased(c, e, p.kept) else p
    case _ => p
  }

  /** A capture identifier belongs to the first descriptor that uses it. */
  function Claimed(p: Phase, r: Request, res: Resource): Phase {
    if r.CaptureId() == res.descriptor.captureId && r.descriptor != res.descriptor then Foreign else p
  }

  function PhaseOf(log: seq<Event>, res: Resource): Phase {
    if log == [] then Untouched
    else PhaseStep(PhaseOf(log[..|log| - 1], res), log[|log| - 1], res)
  }

  /** What an observation must answer in a phase. */
  function Report(p: Phase, e: Context, r: Request): Result<Observation> {
    match p
    case Untouched => Ok(if e.disposition.FencedNoCommit? then Unseen else Unknown)
    case Foreign => Err(Conflict)
    case Reserved(_) => Ok(Prepared)
    case Written(call) =>
      if call.e.proposal.lineage == e.original then Ok(Durable(call.e.proposal)) else Err(Conflict)
    case Cancelled(_, _) => Ok(CleanupPending)
    case Erased(_, under, _) =>
      if r.selected.Some? then Ok(CleanupPending)
      else if under.proposal.lineage == e.original then Ok(CancelledCleaned(under.proposal))
      else Err(Conflict)
  }

  lemma RunExtends(lib: Library, log: seq<Event>, ev: Event, res: Resource)
    ensures Execute(lib, log + [ev]) == (if Execute(lib, log).Some? then Step(lib, Execute(lib, log).value, ev) else None)
    ensures PhaseOf(log + [ev], res) == PhaseStep(PhaseOf(log, res), ev, res)
  {
    hide Step, PhaseStep;
    assert (log + [ev])[..|log + [ev]| - 1] == log;
  }

  // ---------------------------------------------------------------- the invariant

  function Whole(res: Resource): Resource {
    Resource(res.descriptor, None)
  }

  /** Everything the tables hold about one resource. */
  datatype View = View(
    capture: Option<CaptureRow>, attempt: Option<AttemptRow>, stored: Option<ObjectRow>,
    rows: seq<JournalRow>, wholeRows: seq<JournalRow>)

  function ViewOf(t: Tables, res: Resource): View {
    var id := res.descriptor.captureId;
    View(
      if id in t.captures then Some(t.captures[id]) else None,
      if res in t.attempts then Some(t.attempts[res]) else None,
      if res in t.objects then Some(t.objects[res]) else None,
      RowsFor(t.journal, res),
      RowsFor(t.journal, Whole(res)))
  }

  predicate NoRows(v: View) {
    v.attempt.None? && v.stored.None? && v.rows == []
  }

  predicate BoundTo(v: View, res: Resource, cancelled: Option<CancelledResource>) {
    v.capture == Some(CaptureRow(res.descriptor, cancelled))
  }

  /** All rows of a committed part, with or without its bytes. */
  predicate Holds(v: View, res: Resource, call: Call, bytes: bool) {
    && call.r.selected.Some?
    && v.attempt == Some(AttemptRow(call.e.lease, call.e.proposal, AttemptCommitted))
    && v.stored == Some(ObjectRow(
         call.r.CaptureId(), call.r.selected.value, if bytes then Some(call.bytes) else None, call.e.proposal))
    && v.rows == [RowOf(call.e, res)]
  }

  predicate HoldsKept(v: View, res: Resource, kept: Option<Call>, bytes: bool) {
    match kept
    case None => NoRows(v)
    case Some(call) => Holds(v, res, call, bytes)
  }

  /** What the tables hold about a resource in each phase. */
  predicate Agrees(v: View, res: Resource, p: Phase) {
    match p
    case Untouched => (v.capture.None? || BoundTo(v, res, None)) && NoRows(v)
    case Foreign => v.capture.Some? && v.capture.value.descriptor != res.descriptor && NoRows(v)
    case Reserved(call) =>
      && BoundTo(v, res, None)
      && v.attempt == Some(AttemptRow(call.e.lease, call.e.proposal, AttemptPrepared))
      && v.stored.None? && v.rows == []
    case Written(call) => BoundTo(v, res, None) && Holds(v, res, call, true)
    case Cancelled(c, kept) => BoundTo(v, res, Some(c)) && HoldsKept(v, res, kept, true)
    case Erased(c, under, kept) =>
      && BoundTo(v, res, Some(c))
      && v.wholeRows == [RowOf(under, Whole(res))]
      && (if res.part.None? then kept.None? && v.attempt.None? && v.stored.None?
          else HoldsKept(v, res, kept, false))
  }

  ghost predicate Fits(lib: Library, call: Call, res: Resource) {
    StageArgs(lib, call) && call.Target() == res && call.r.selected.Some?
  }

  /** The calls and cancellations a phase remembers passed the checks of their operation. */
  ghost predicate Sound(lib: Library, res: Resource, p: Phase) {
    match p
    case Reserved(call) => Fits(lib, call, res)
    case Written(call) => Fits(lib, call, res)
    case Cancelled(c, kept) => c.Validate(Request(res.descriptor, None)) && (kept.Some? ==> Fits(lib, kept.value, res))
    case Erased(c, under, kept) =>
      && c.Validate(Request(res.descriptor, None)) && (kept.Some? ==> Fits(lib, kept.value, res))
      && c.VerifyCleaned(Request(res.descriptor, None), under.proposal).Ok?
    case _ => true
  }

  ghost predicate UniqueJournal(journal: seq<JournalRow>) {
    forall i, j :: 0 <= i < j < |journal| ==>
      && journal[i].ownerReceipt != journal[j].ownerReceipt
      && journal[i].lease != journal[j].lease
      && journal[i].sequence != journal[j].sequence
  }

  ghost predicate UniqueLeases(attempts: map<Resource, AttemptRow>) {
    forall a, b :: a in attempts && b in attempts && attempts[a].lease == attempts[b].lease ==> a == b
  }

  ghost predicate Consistent(lib: Library, t: Tables, log: seq<Event>, res: Resource) {
    Agrees(ViewOf(t, res), res, PhaseOf(log, res)) && Sound(lib, res, PhaseOf(log, res))
  }

  ghost predicate Inv(lib: Library, s: Store, log: seq<Event>) {
    && (forall res :: Consistent(lib, s.tables, log, res))
    && |s.tables.journal| <= JOURNAL_CAPACITY
    && UniqueJournal(s.tables.journal)
    && UniqueLeases(s.tables.attempts)
    && (forall call :: call in s.inflight ==> PhaseOf(log, call.Target()) == Reserved(call))
  }
}
