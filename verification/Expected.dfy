/**
 What the service answers when nothing fails, read off the phase of the resource before the
 call.  Nothing here is used by the service's code.
 */
module Expected {
  import opened Results
  import opened Native
  import opened Inventory
  import opened Protocol
  import opened Refinement
  import opened Safety
  import opened Cleanup
  import opened Backend
  import P = Parent

  type Seen = P.Seen<ObjectReceipt, Outcome>
  type Commit = P.Commit<ObjectReceipt, Outcome>

  /** The observation of a resource in a phase. */
  function SeenIn(p: Phase, e: Context, r: Request): Result<Seen> {
    match p
    case Untouched => Ok(if e.disposition.FencedNoCommit? then P.Unseen else P.Unknown)
    case Foreign => Err(Conflict)
    case Reserved(_) => Ok(P.Prepared)
    case Written(call) =>
      if r.selected.Some? && call.e.proposal.lineage == e.original
      then Ok(P.Durable(r.selected.value, call.e.proposal)) else Err(Conflict)
    case Cancelled(_, _) => Ok(P.CleanupPending)
    case Erased(_, under, _) =>
      if r.selected.Some? then Ok(P.CleanupPending)
      else if under.proposal.lineage == e.original then Ok(P.CancelledCleaned(under.proposal))
      else Err(Conflict)
  }

  /** A write: the outcome of the one durable write, made now or found. */
  function WriteAnswer(p: Phase, e: Context, full: bool): Result<Outcome> {
    match p
    case Untouched =>
      if e.disposition.ExistingOrUnknown? then Err(Refusal.Pending) else if full then Err(Backpressure) else Ok(e.proposal)
    case Reserved(_) => Err(Refusal.Pending)
    case Written(call) => if call.e.proposal.lineage == e.original then Ok(call.e.proposal) else Err(Conflict)
    case _ => Err(Conflict)
  }

  /** The same as the storage reports it. */
  function StageReport(p: Phase, e: Context, r: Request, full: bool): Result<Commit> {
    match WriteAnswer(p, e, full)
    case Ok(o) => if r.selected.Some? then Ok(P.Committed(r.selected.value, o)) else Err(Conflict)
    case Err(why) => Err(why)
  }

  /** A verification. */
  function VerifyAnswer(p: Phase, e: Context): Result<Outcome> {
    match p
    case Untouched => Err(if e.disposition.FencedNoCommit? then NotAvailable else Refusal.Pending)
    case Reserved(_) => Err(Refusal.Pending)
    case Written(call) => if call.e.proposal.lineage == e.original then Ok(call.e.proposal) else Err(Conflict)
    case Foreign => Err(Conflict)
    case _ => Err(NotAvailable)
  }

  /** A part of the capture is prepared and its write in doubt. */
  ghost predicate PartInDoubt(log: seq<Event>, r: Request) {
    exists res :: res in r.PartResources() && PhaseOf(log, res).Reserved?
  }

  /** The tombstone and the erasing, one after the other. */
  ghost function EraseAnswer(log: seq<Event>, r: Request, e: Context, c: CancelledResource, full: bool): Result<Outcome> {
    var p := PhaseOf(log, r.ResourceIdentity());
    if PartInDoubt(log, r) then Err(Refusal.Pending)
    else if p.Untouched? || (p.Cancelled? && p.c == c) then (if full then Err(Backpressure) else Ok(e.proposal))
    else if p.Erased? && p.c == c then
      (if p.under.proposal.lineage == e.original then Ok(p.under.proposal) else Err(Conflict))
    else Err(Conflict)
  }

  /** A clean-up: the outcome of the one erasure, made now or found. */
  ghost function CleanAnswer(log: seq<Event>, r: Request, e: Context, c: CancelledResource, full: bool): Result<Outcome> {
    match PhaseOf(log, r.ResourceIdentity())
    case Untouched => if e.disposition.ExistingOrUnknown? then Err(Refusal.Pending) else EraseAnswer(log, r, e, c, full)
    case Erased(_, under, _) => if under.proposal.lineage == e.original then Ok(under.proposal) else Err(Conflict)
    case Cancelled(known, _) => if known != c then Err(Conflict) else if full then Err(Backpressure) else Ok(e.proposal)
    case _ => Err(Conflict)
  }

  // ---------------------------------------------------------------- connections

  lemma ReportIsSeen(lib: Library, log: seq<Event>, e: Context, r: Request)
    requires Execute(lib, log).Some? && r.Parsed(lib)
    ensures var p := PhaseOf(log, r.ResourceIdentity());
            && (p.Written? ==> r.selected.Some? && p.call.e.proposal.Receipt(r) == Ok(r.selected.value))
            && (p.Erased? && r.selected.None? ==> p.under.proposal.DiskCleaned? && p.c.VerifyCleaned(r, p.under.proposal).Ok?)
            && (r.selected.None? ==> !p.Reserved? && !p.Written?)
  {
    hide Step, Accepted, VerifyReceiptBytes, RowsFor, Agrees;
    var p := PhaseOf(log, r.ResourceIdentity());
    RunConsistent(lib, log, r.ResourceIdentity());
    if p.Written? {
      ResourceNamesRequest(lib, p.call.r, r);
    }
    assert r.selected.None? ==> r == Request(r.descriptor, None);
  }

  /** What the backend answers is what the phase says. */
  lemma StageAnswerIs(p: Phase, e: Context, full: bool)
    ensures StageAnswer(p, e, full) ==
              match WriteAnswer(p, e, full)
              case Ok(o) => Ok(Some(o))
              case Err(why) => Err(why)
  {
  }

  /** How an observation decides a write and a verification of a part. */
  lemma SeenDecides(p: Phase, e: Context, r: Request, full: bool)
    requires r.selected.Some?
    ensures match SeenIn(p, e, r)
            case Err(why) => WriteAnswer(p, e, full) == Err(why) && VerifyAnswer(p, e) == Err(why)
            case Ok(Durable(receipt, o)) =>
              receipt == r.selected.value && WriteAnswer(p, e, full) == Ok(o) && VerifyAnswer(p, e) == Ok(o) && o.lineage == e.original
            case Ok(Unseen) => p.Untouched? && VerifyAnswer(p, e) == Err(NotAvailable)
            case Ok(Prepared) => WriteAnswer(p, e, full) == Err(Refusal.Pending) && VerifyAnswer(p, e) == Err(Refusal.Pending)
            case Ok(Unknown) => WriteAnswer(p, e, full) == Err(Refusal.Pending) && VerifyAnswer(p, e) == Err(Refusal.Pending)
            case Ok(CleanupPending) => WriteAnswer(p, e, full) == Err(Conflict) && VerifyAnswer(p, e) == Err(NotAvailable)
            case Ok(_) => false
  {
  }

  /** How an observation decides a clean-up of a whole capture. */
  lemma SeenDecidesCleanup(lib: Library, log: seq<Event>, e: Context, r: Request, c: CancelledResource, full: bool)
    requires Execute(lib, log).Some? && r.Parsed(lib) && r.selected.None?
    ensures match SeenIn(PhaseOf(log, r.ResourceIdentity()), e, r)
            case Err(why) => CleanAnswer(log, r, e, c, full) == Err(why)
            case Ok(CancelledCleaned(o)) => CleanAnswer(log, r, e, c, full) == Ok(o)
            case Ok(Unknown) => CleanAnswer(log, r, e, c, full) == Err(Refusal.Pending)
            case Ok(Unseen) => CleanAnswer(log, r, e, c, full) == EraseAnswer(log, r, e, c, full)
            case Ok(CleanupPending) => CleanAnswer(log, r, e, c, full) == EraseAnswer(log, r, e, c, full)
            case Ok(_) => false
  {
    hide Execute, EraseAnswer, PhaseOf;
    ReportIsSeen(lib, log, e, r);
    if PhaseOf(log, r.ResourceIdentity()).Cancelled? {
      CleanAnswerIs(lib, log, r, e, c, full);
    }
  }

  /** A cancelled or erased capture has no part in doubt. */
  lemma NoPartInDoubt(lib: Library, log: seq<Event>, r: Request)
    requires Execute(lib, log).Some? && r.selected.None?
    requires PhaseOf(log, r.ResourceIdentity()).Cancelled? || PhaseOf(log, r.ResourceIdentity()).Erased?
    ensures !PartInDoubt(log, r)
  {
    hide Execute, PhaseOf;
    forall res | res in r.PartResources() ensures !PhaseOf(log, res).Reserved? {
      assert Whole(res) == r.ResourceIdentity();
      CancelledTogether(lib, log, res);
    }
  }

  /** The tombstone's answer, then the erasing's on the run it leaves. */
  lemma EraseAnswerIs(log: seq<Event>, r: Request, e: Context, c: CancelledResource, full: bool)
    requires r.selected.None?
    requires var p := PhaseOf(log, r.ResourceIdentity());
             !p.Reserved? && !p.Written?
    ensures match TombstoneAnswer(log, r, c)
            case Err(why) => EraseAnswer(log, r, e, c, full) == Err(why)
            case Ok(_) =>
              match CleanupAnswer(PhaseOf(log + [Tombstone(e, r, c)], r.ResourceIdentity()), e, c, full)
              case Ok(Some(o)) => EraseAnswer(log, r, e, c, full) == Ok(o)
              case Ok(None) => false
              case Err(why) => EraseAnswer(log, r, e, c, full) == Err(why)
  {
    var after := log + [Tombstone(e, r, c)];
    assert after[..|after| - 1] == log;
  }

  lemma CleanAnswerIs(lib: Library, log: seq<Event>, r: Request, e: Context, c: CancelledResource, full: bool)
    requires Execute(lib, log).Some? && r.selected.None? && PhaseOf(log, r.ResourceIdentity()).Cancelled?
    ensures CleanAnswer(log, r, e, c, full) == EraseAnswer(log, r, e, c, full)
  {
    hide Execute, PhaseOf;
    NoPartInDoubt(lib, log, r);
  }
}
