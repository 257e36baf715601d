/**
 The composed service: the parent over the native authority's binding checks
 (`parent_authority.rs`), the native storage adapter (`parent_native.rs`) and the SQLite
 backend.  Only the control plane stays abstract: it is the record of what it answers.
 */
module Service {
  import opened Results
  import opened Native
  import opened Inventory
  import opened Protocol
  import opened Refinement
  import opened Safety
  import opened Cleanup
  import opened Backend
  import opened Expected
  import P = Parent

  type Answers = P.Answers<ObjectReceipt, Outcome, CancelledResource>
  type Trace = seq<P.Port<ObjectReceipt, Outcome, CancelledResource>>

  datatype DeploymentBinding = DeploymentBinding(
    issuer: string, realmId: Id, deploymentGeneration: nat, participantConfigVersion: nat,
    keyDomainRef: string, executableSha256: string, configSha256: string)
  {
    predicate SelectionValid() {
      1 <= |issuer| <= 256 && 1 <= |keyDomainRef| <= 256
    }
  }

  datatype ConfigReferences = ConfigReferences(provisionerReference: string, authReference: string)
  datatype LeaseBinding = LeaseBinding(
    deployment: DeploymentBinding, descriptor: Descriptor, resource: Resource, operation: Operation)
  datatype DurableBinding = DurableBinding(originalEffect: OriginalEffect, storageReceiptId: Id)

  /** What the injected control plane does in one call. */
  datatype Control = Control(
    startup: P.Gate, observed: DeploymentBinding,
    effect: P.Gate, lease: Context, binding: LeaseBinding,
    cancelledResource: Result<Bytes>, durable: Result<DurableBinding>,
    cleaned: Result<OriginalEffect>, register: Result<()>)

  /** The live effect context. */
  datatype Effect = Effect(lease: Context, operation: Operation, descriptor: Descriptor, resource: Resource) {
    predicate SameRequest(r: Request) {
      descriptor == r.descriptor && resource == r.ResourceIdentity()
    }

    predicate Matches(r: Request, op: Operation) {
      SameRequest(r) && operation == op
    }
  }

  // ---------------------------------------------------------------- the native authority

  function Guarded(gate: P.Gate, bound: bool, why: Refusal): P.Gate {
    match gate
    case Admit => if bound then P.Admit else P.Refuse(why)
    case AdmitThenFail(after) => if bound then gate else P.Refuse(after)
    case Refuse(_) => gate
  }

  function StartupGate(d: DeploymentBinding, refs: ConfigReferences, ctl: Control): P.Gate {
    if !d.SelectionValid() || refs.provisionerReference == "" || refs.authReference == "" then P.Refuse(Unavailable)
    else Guarded(ctl.startup, ctl.observed == d, Unavailable)
  }

  function EffectGate(r: Request, op: Operation, ctl: Control): P.Gate {
    if r.descriptor.realmId != ctl.observed.realmId || !r.Accepts(op) then P.Refuse(NotAvailable)
    else Guarded(ctl.effect, ctl.binding == LeaseBinding(ctl.observed, r.descriptor, r.ResourceIdentity(), op), NotAvailable)
  }

  /** The deployment, the request and the operation are the ones the control plane attests. */
  predicate Attested(d: DeploymentBinding, refs: ConfigReferences, r: Request, op: Operation, ctl: Control) {
    && 1 <= |d.issuer| <= 256 && 1 <= |d.keyDomainRef| <= 256
    && refs.provisionerReference != "" && refs.authReference != ""
    && r.descriptor.realmId == d.realmId && (op.CleanupCancelled? <==> r.selected.None?)
    && ctl.observed == d && ctl.binding == LeaseBinding(d, r.descriptor, r.ResourceIdentity(), op)
    && !ctl.startup.Refuse? && !ctl.effect.Refuse?
  }

  /** Both fences are entered exactly under an attested binding. */
  lemma FencesAttest(d: DeploymentBinding, refs: ConfigReferences, r: Request, op: Operation, ctl: Control)
    ensures !StartupGate(d, refs, ctl).Refuse? && !EffectGate(r, op, ctl).Refuse? <==> Attested(d, refs, r, op, ctl)
    ensures Attested(d, refs, r, op, ctl) ==>
              && StartupGate(d, refs, ctl) == ctl.startup && EffectGate(r, op, ctl) == ctl.effect
              && EffectOf(ctl, op) == Effect(ctl.lease, op, r.descriptor, r.ResourceIdentity())
              && EffectOf(ctl, op).Matches(r, op)
  {
  }

  /** The lease carries a stored outcome of this very part and its original effect, and the body is
      the declared one. */
  ghost predicate Offered(lib: Library, e: Context, r: Request, bytes: Bytes) {
    && e.resource == r.ResourceIdentity() && e.descriptor == r.descriptor && e.proposal.lineage == e.original
    && e.proposal.DiskStored? && r.selected == Some(e.proposal.objectReceipt)
    && e.original.realmId == r.descriptor.realmId && e.original.intentId == r.descriptor.captureId
    && |bytes| == e.proposal.objectReceipt.sizeBytes && lib.sha256(bytes) == e.proposal.objectReceipt.sha256 && lib.utf8(bytes)
  }

  /** A confirmable outcome passes the authority's check and can be read back. */
  lemma ConfirmableIsDurable(lib: Library, log: seq<Event>, e: Effect, r: Request, ctl: Control, receipt: ObjectReceipt, o: Outcome)
    requires Execute(lib, log).Some? && r.Parsed(lib) && Confirmable(log, e, r, ctl, receipt, o)
    ensures VerifyDurable(ctl, e, r, receipt, o).Ok? && HeldUnder(lib, log, e, r) && r.Selected() == Ok(receipt)
    ensures e.operation.Stage? && ctl.register.Ok? ==> RegisterOutcome(ctl, e, r, o).Ok?
  {
    hide Execute, Accepted;
    StoredIsDeclared(lib, log, r);
    ReportIsSeen(lib, log, e.lease, r);
    hide PhaseOf;
  }

  lemma DurableIsConfirmable(log: seq<Event>, e: Effect, r: Request, ctl: Control, receipt: ObjectReceipt, o: Outcome)
    requires WrittenAs(log, r, o)
    ensures (&& (e.Matches(r, Stage) || e.Matches(r, Verify)) && e.lease.Matches(r) && r.selected == Some(receipt)
             && VouchedDurable(ctl, o) && o.lineage == e.lease.original)
            ==> Confirmable(log, e, r, ctl, receipt, o)
  {
  }

  lemma ConfirmableMatches(log: seq<Event>, e: Effect, r: Request, ctl: Control, receipt: ObjectReceipt, o: Outcome)
    requires Confirmable(log, e, r, ctl, receipt, o)
    ensures e.lease.Matches(r)
  {
  }

  /** What a stage reports in the phase it found can be confirmed. */
  lemma CommitIsConfirmable(e: Effect, r: Request, ctl: Control, commit: Expected.Commit, p: Phase,
                            log: seq<Event>, full: bool)
    requires StageReport(p, e.lease, r, full) == Ok(commit) && commit.Committed? && WrittenAs(log, r, commit.outcome)
    ensures WriteAnswer(p, e.lease, full) == Ok(commit.outcome)
    ensures e.Matches(r, Stage) && e.lease.Matches(r) && Backed(ctl, Ok(commit.outcome)) ==>
              Confirmable(log, e, r, ctl, commit.receipt, commit.outcome) && ctl.register.Ok?
  {
    hide PhaseOf;
  }

  lemma StageableIsShort(lib: Library, call: Call)
    requires StageArgs(lib, call)
    ensures call.r.selected.Some? && |call.bytes| <= 1_048_576
    ensures call.e.Matches(call.r) && call.r.VerifyBody(lib, call.bytes).Ok?
  {
    hide Accepted;
  }

  lemma WriteTrace(a: Answers)
    ensures Disciplined(P.WriteOrReconcile(a).trace, P.WriteOrReconcile(a).result)
  {
    hide P.WriteOrReconcile, P.Follow;
    P.WriteIsDisciplined(a);
  }

  lemma CleanupTrace(a: Answers)
    ensures Disciplined(P.Cleanup(a).trace, P.Cleanup(a).result)
  {
    hide P.Cleanup, P.Follow;
    P.CleanupIsDisciplined(a);
  }

  lemma HeldIsStored(lib: Library, log: seq<Event>, e: Effect, r: Request, o: Outcome)
    requires Execute(lib, log).Some? && r.Parsed(lib) && WrittenAs(log, r, o) && HeldUnder(lib, log, e, r)
    ensures StoredFor(lib, log, r, o) && o.lineage == e.lease.original
  {
    hide Execute, Accepted, PhaseOf;
    StoredIsDeclared(lib, log, r);
  }

  lemma OfferedIsStageable(lib: Library, e: Context, r: Request, bytes: Bytes)
    requires r.Parsed(lib)
    ensures Offered(lib, e, r, bytes) <==> StageArgs(lib, Call(e, r, bytes))
  {
    hide Accepted, VerifyReceiptBytes, Request.VerifyBody;
    BodyAcceptedExactly(lib, r, bytes);
  }

  /** The control plane knows this very write … */
  predicate VouchedDurable(ctl: Control, o: Outcome) {
    && ctl.durable.Ok? && o.lineage == ctl.durable.value.originalEffect
    && o.DiskStored? && o.storageReceiptId == ctl.durable.value.storageReceiptId
  }

  /** … and took its registration. */
  predicate Vouched(ctl: Control, o: Outcome) {
    VouchedDurable(ctl, o) && ctl.register.Ok?
  }

  /** The control plane cancelled this capture, knows this very clean-up and took its registration. */
  predicate VouchedCleaned(lib: Library, ctl: Control, r: Request, o: Outcome) {
    && o.DiskCleaned? && ctl.cleaned.Ok? && o.lineage == ctl.cleaned.value
    && ctl.cancelledResource.Ok? && ParseCancelled(lib, ctl.cancelledResource.value, r).Ok?
    && ParseCancelled(lib, ctl.cancelledResource.value, r).value.VerifyCleaned(r, o).Ok?
    && ctl.register.Ok?
  }

  function EffectOf(ctl: Control, op: Operation): Effect {
    Effect(ctl.lease, op, ctl.binding.descriptor, ctl.binding.resource)
  }

  function VerifyDurable(ctl: Control, e: Effect, r: Request, receipt: ObjectReceipt, o: Outcome): Result<()> {
    if !(e.operation.Stage? || e.operation.Verify?) || !e.SameRequest(r) || o.Receipt(r) != Ok(receipt) then Err(NotAvailable)
    else
      var expected :- ctl.durable;
      if o.MatchesOriginal(expected.originalEffect) && o.DiskStored? && o.storageReceiptId == expected.storageReceiptId
      then Ok(()) else Err(NotAvailable)
  }

  function RegisterOutcome(ctl: Control, e: Effect, r: Request, o: Outcome): Result<()> {
    if !e.SameRequest(r) || !o.MatchesOperation(e.operation) then Err(NotAvailable)
    else if ctl.register.Err? then Err(ctl.register.refusal)
    else Ok(())
  }

  function CancelledOf(lib: Library, ctl: Control, e: Effect, r: Request): Result<CancelledResource> {
    if !e.Matches(r, CleanupCancelled) then Err(NotAvailable)
    else
      var text :- ctl.cancelledResource;
      ParseCancelled(lib, text, r)
  }

  function VerifyCleaned(ctl: Control, e: Effect, r: Request, c: CancelledResource, o: Outcome): Result<()> {
    if !e.Matches(r, CleanupCancelled) then Err(NotAvailable)
    else
      var _ :- c.VerifyCleaned(r, o);
      var expected :- ctl.cleaned;
      if o.MatchesOriginal(expected) then Ok(()) else Err(NotAvailable)
  }

  /** The authority refuses an effect that is not of this request, or not of this operation. */
  lemma AuthorityRefusesOthers(lib: Library, ctl: Control, e: Effect, r: Request, receipt: ObjectReceipt, c: CancelledResource, o: Outcome)
    ensures e.Matches(r, e.operation) <==> e.descriptor == r.descriptor && e.resource == r.ResourceIdentity()
    ensures e.descriptor != r.descriptor || e.resource != r.ResourceIdentity() ==>
              && VerifyDurable(ctl, e, r, receipt, o) == Err(NotAvailable) && RegisterOutcome(ctl, e, r, o) == Err(NotAvailable)
              && CancelledOf(lib, ctl, e, r) == Err(NotAvailable) && VerifyCleaned(ctl, e, r, c, o) == Err(NotAvailable)
    ensures e.operation == Status || e.operation == CleanupCancelled ==> VerifyDurable(ctl, e, r, receipt, o) == Err(NotAvailable)
    ensures e.operation != CleanupCancelled ==>
              CancelledOf(lib, ctl, e, r) == Err(NotAvailable) && VerifyCleaned(ctl, e, r, c, o) == Err(NotAvailable)
    ensures RegisterOutcome(ctl, e, r, o).Ok? ==> if o.DiskStored? then e.operation == Stage else e.operation == CleanupCancelled
  {
  }

  // ---------------------------------------------------------------- the native storage adapter

  function Project(r: Request, o: Observation): Result<Seen> {
    match o
    case Durable(outcome) =>
      var receipt :- outcome.Receipt(r);
      Ok(P.Durable(receipt, outcome))
    case CancelledCleaned(outcome) => if outcome.DiskCleaned? then Ok(P.CancelledCleaned(outcome)) else Err(Unavailable)
    case Unseen => Ok(P.Unseen)
    case Prepared => Ok(P.Prepared)
    case Unknown => Ok(P.Unknown)
    case Corrupt => Ok(P.Corrupt)
    case CleanupPending => Ok(P.CleanupPending)
  }

  function Projected(r: Request, seen: Result<Observation>): Result<Seen> {
    var o :- seen;
    Project(r, o)
  }

  /** The part's one commit was made under the original effect of `e`, and its bytes are the
      declared ones. */
  ghost predicate HeldUnder(lib: Library, log: seq<Event>, e: Effect, r: Request) {
    var p := PhaseOf(log, r.ResourceIdentity());
    p.Written? && p.call.e.proposal.lineage == e.lease.original && Declared(lib, r, p.call.bytes)
  }

  ghost predicate Declared(lib: Library, r: Request, bytes: Bytes) {
    && r.selected.Some? && |bytes| == r.selected.value.sizeBytes
    && lib.sha256(bytes) == r.selected.value.sha256 && lib.utf8(bytes)
  }

  /** The outcome of the part's durable write is ready to be confirmed under `e`. */
  ghost predicate Confirmable(log: seq<Event>, e: Effect, r: Request, ctl: Control, receipt: ObjectReceipt, o: Outcome) {
    && (e.Matches(r, Stage) || e.Matches(r, Verify)) && e.lease.Matches(r) && r.selected == Some(receipt)
    && VouchedDurable(ctl, o) && WrittenAs(log, r, o) && o.lineage == e.lease.original
  }

  /** The clean-up's outcome is ready to be certified under `c`. */
  predicate Certifiable(ctl: Control, r: Request, c: CancelledResource, o: Outcome) {
    o.DiskCleaned? && c.VerifyCleaned(r, o).Ok? && ctl.cleaned == Ok(o.lineage) && ctl.register.Ok?
  }

  /** Attested, with a cancellation whose clean-up the lease proposes, a call is all set. */
  lemma CleanupIsOffered(lib: Library, d: DeploymentBinding, refs: ConfigReferences, r: Request, ctl: Control,
                         known: CancelledResource, answer: Result<Outcome>)
    requires Attested(d, refs, r, CleanupCancelled, ctl) && r.Parsed(lib) && ctl.lease.Matches(r) && ctl.cancelledResource.Ok?
    requires ParseCancelled(lib, ctl.cancelledResource.value, r) == Ok(known) && known.VerifyCleaned(r, ctl.lease.proposal).Ok?
    ensures CancelledOf(lib, ctl, EffectOf(ctl, CleanupCancelled), r) == Ok(known) && CleanupArgs(lib, ctl.lease, r, known)
    ensures BackedCleaned(lib, ctl, r, answer) && answer.Ok? ==> Certifiable(ctl, r, known, answer.value)
  {
  }

  lemma ErasedStays(log: seq<Event>, e: Context, r: Request, c: CancelledResource)
    ensures PhaseOf(log, r.ResourceIdentity()).Erased? ==> PhaseOf(log + [Tombstone(e, r, c)], r.ResourceIdentity()).Erased?
  {
    var after := log + [Tombstone(e, r, c)];
    assert after[..|after| - 1] == log;
  }

  lemma SameJournal(t: Tables, u: Tables, e: Context)
    ensures t.journal == u.journal ==> (Unused(t, e) <==> Unused(u, e))
  {
  }

  lemma CleanupArgsMean(lib: Library, e: Context, r: Request, c: CancelledResource)
    requires CleanupArgs(lib, e, r, c)
    ensures e.Matches(r) && r.selected.None?
  {
  }

  lemma CleanedHasNoBodies(lib: Library, log: seq<Event>, ctl: Control, r: Request, o: Outcome)
    requires Execute(lib, log).Some? && ErasedAs(log, r, o) && VouchedCleaned(lib, ctl, r, o)
    ensures BodiesLeft(Execute(lib, log).value.tables, r.CaptureId()) == {}
  {
    hide Execute, PhaseOf, BodiesLeft;
    NoBodies(lib, log, r);
  }

  /** Whatever a call is due to return, the control plane vouches for it. */
  predicate Backed(ctl: Control, answer: Result<Outcome>) {
    answer.Ok? ==> Vouched(ctl, answer.value)
  }

  predicate BackedCleaned(lib: Library, ctl: Control, r: Request, answer: Result<Outcome>) {
    answer.Ok? ==> VouchedCleaned(lib, ctl, r, answer.value)
  }

  /** The one durable write of the part: its outcome is `o`, about this receipt of this capture,
      and its bytes are the declared ones. */
  ghost predicate StoredFor(lib: Library, log: seq<Event>, r: Request, o: Outcome) {
    var p := PhaseOf(log, r.ResourceIdentity());
    && p.Written? && p.call.e.proposal == o && Declared(lib, r, p.call.bytes)
    && o.DiskStored? && r.selected == Some(o.objectReceipt)
    && o.lineage.realmId == r.descriptor.realmId && o.lineage.intentId == r.descriptor.captureId
  }

  /** The resource is durably written and `o` is what was written. */
  ghost predicate WrittenAs(log: seq<Event>, r: Request, o: Outcome) {
    var p := PhaseOf(log, r.ResourceIdentity());
    p.Written? && p.call.e.proposal == o
  }

  /** The bytes of the one durable write. */
  ghost predicate WrittenFrom(log: seq<Event>, r: Request, bytes: Bytes) {
    var p := PhaseOf(log, r.ResourceIdentity());
    p.Written? && p.call.bytes == bytes
  }

  ghost predicate ErasedAs(log: seq<Event>, r: Request, o: Outcome) {
    var p := PhaseOf(log, r.ResourceIdentity());
    p.Erased? && p.under.proposal == o
  }

  /** No port asked yet. */
  function Silent(startup: P.Gate, effect: P.Gate): Answers {
    P.Answers(startup, effect, Err(Unavailable), Err(Unavailable), Err(Unavailable), Err(Unavailable), Err(Unavailable),
      Err(Unavailable), Err(Unavailable), Err(Unavailable), Err(Unavailable), Err(Unavailable), Err(Unavailable))
  }

  /** What a fence makes of the result of the action it ran. */
  function Left<T>(gate: P.Gate, inner: Result<T>): Result<T> {
    if gate.Admit? then inner else Err(gate.why)
  }

  /** The calls of one trace obey the parent's rules, both fences are closed again, and a
      success was registered. */
  ghost predicate Disciplined(trace: Trace, out: Result<Outcome>) {
    var end := P.Follow(P.Closed(), trace);
    && end.Some? && !end.value.startup && end.value.effect.None?
    && (out.Ok? ==> end.value.registered == Some(out.value))
  }

  /** The calls and the result of an action run behind both fences, from a trace `t` on. */
  lemma FencedAs<T>(a: Answers, op: Operation, action: P.Run<T, ObjectReceipt, Outcome, CancelledResource>, t: Trace)
    ensures var run := P.Authorized(a, op, action);
            if a.startup.Refuse? then run.result == Err(a.startup.why) && t + run.trace == t
            else if a.effect.Refuse? then
              run.result == Left(a.startup, Err(a.effect.why)) && t + run.trace == t + [P.EnterStartup] + [P.LeaveStartup]
            else
              && run.result == Left(a.startup, Left(a.effect, action.result))
              && t + run.trace ==
                   t + [P.EnterStartup] + [P.EnterEffect(op)] + action.trace + [P.LeaveEffect] + [P.LeaveStartup]
  {
  }

  /**
   The ports of the service over one backend.  Every port appends its call, with the answer it
   gave, to the ghost trace; the service methods below never write the trace themselves.
   */
  class Ports {
    const b: SqliteBackend
    ghost var trace: Trace

    ghost predicate Valid()
      reads this, b
    {
      b.Valid()
    }

    constructor (b: SqliteBackend)
      ensures this.b == b && trace == []
    {
      this.b := b;
      trace := [];
    }

    // -------------------------------------------------------------- the fences

    method EnterStartup(d: DeploymentBinding, refs: ConfigReferences, ctl: Control) returns (gate: P.Gate)
      modifies this
      ensures gate == StartupGate(d, refs, ctl)
      ensures trace == old(trace) + if gate.Refuse? then [] else [P.EnterStartup]
    {
      gate := StartupGate(d, refs, ctl);
      if !gate.Refuse? {
        trace := trace + [P.EnterStartup];
      }
    }

    method LeaveStartup()
      modifies this
      ensures trace == old(trace) + [P.LeaveStartup]
    {
      trace := trace + [P.LeaveStartup];
    }

    method EnterEffect(r: Request, op: Operation, ctl: Control) returns (gate: P.Gate, e: Effect)
      modifies this
      ensures gate == EffectGate(r, op, ctl) && e == EffectOf(ctl, op)
      ensures trace == old(trace) + if gate.Refuse? then [] else [P.EnterEffect(op)]
    {
      gate, e := EffectGate(r, op, ctl), EffectOf(ctl, op);
      if !gate.Refuse? {
        trace := trace + [P.EnterEffect(op)];
      }
    }

    method LeaveEffect()
      modifies this
      ensures trace == old(trace) + [P.LeaveEffect]
    {
      trace := trace + [P.LeaveEffect];
    }

    // -------------------------------------------------------------- the caller and the authority

    method AskBody(body: Result<Bytes>) returns (out: Result<Bytes>)
      modifies this
      ensures out == body && trace == old(trace) + [P.Body(out)]
    {
      trace := trace + [P.Body(body)];
      return body;
    }

    method CheckDurable(ctl: Control, e: Effect, r: Request, receipt: ObjectReceipt, o: Outcome) returns (out: Result<()>)
      modifies this
      ensures out == VerifyDurable(ctl, e, r, receipt, o)
      ensures out.Ok? ==> VouchedDurable(ctl, o)
      ensures trace == old(trace) + [P.VerifyDurable(receipt, o, out.Ok?)]
    {
      out := VerifyDurable(ctl, e, r, receipt, o);
      trace := trace + [P.VerifyDurable(receipt, o, out.Ok?)];
    }

    method RegisterWith(ctl: Control, e: Effect, r: Request, o: Outcome) returns (out: Result<()>)
      modifies this
      ensures out == RegisterOutcome(ctl, e, r, o) && (out.Ok? ==> ctl.register.Ok?)
      ensures trace == old(trace) + [P.Register(o, out.Ok?)]
    {
      out := RegisterOutcome(ctl, e, r, o);
      trace := trace + [P.Register(o, out.Ok?)];
    }

    method AskCancelled(ctl: Control, e: Effect, r: Request) returns (out: Result<CancelledResource>)
      modifies this
      ensures out == CancelledOf(b.lib, ctl, e, r) && trace == old(trace) + [P.Cancelled(out)]
    {
      out := CancelledOf(b.lib, ctl, e, r);
      trace := trace + [P.Cancelled(out)];
    }

    method CheckCleaned(ctl: Control, e: Effect, r: Request, c: CancelledResource, o: Outcome) returns (out: Result<()>)
      modifies this
      ensures out == VerifyCleaned(ctl, e, r, c, o)
      ensures trace == old(trace) + [P.VerifyCleaned(c, o, out.Ok?)]
    {
      out := VerifyCleaned(ctl, e, r, c, o);
      trace := trace + [P.VerifyCleaned(c, o, out.Ok?)];
    }

    // -------------------------------------------------------------- the storage

    /** An answer is the phase of the resource, projected. */
    method ObserveStorage(e: Effect, r: Request) returns (out: Result<Seen>)
      requires Valid() && r.Parsed(b.lib)
      modifies this, b`uncertain, b`clock
      ensures Valid() && trace == old(trace) + [P.Observe(out)]
      ensures old(b.uncertain) ==> b.uncertain
      ensures b.uncertain ==> out.Err?
      ensures !b.uncertain && e.lease.Matches(r) ==> out == SeenIn(PhaseOf(b.log, r.ResourceIdentity()), e.lease, r)
      ensures out.Ok? ==> e.lease.Matches(r) && out != Ok(P.Corrupt)
      ensures out.Ok? && out.value.Durable? ==> WrittenAs(b.log, r, out.value.outcome)
      ensures out.Ok? && out.value.CancelledCleaned? ==> ErasedAs(b.log, r, out.value.outcome)
      ensures b.clock >= old(b.clock)
      ensures old(b.Calm()) && !old(b.uncertain) ==> !b.uncertain
    {
      hide Execute, Observe, PhaseOf;
      var seen := b.ObserveContext(e.lease, r);
      if e.lease.Matches(r) {
        ObservationIsThePhase(b.lib, b.log, e.lease, r);
        ReportIsSeen(b.lib, b.log, e.lease, r);
      }
      out := Projected(r, seen);
      trace := trace + [P.Observe(out)];
    }

    method CheckBody(r: Request, bytes: Bytes) returns (out: Result<()>)
      modifies this
      ensures out == r.VerifyBody(b.lib, bytes) && trace == old(trace) + [P.VerifyBody(out.Ok?)]
    {
      out := r.VerifyBody(b.lib, bytes);
      trace := trace + [P.VerifyBody(out.Ok?)];
    }

    method StageStorage(e: Effect, r: Request, bytes: Bytes) returns (out: Result<P.Commit<ObjectReceipt, Outcome>>)
      requires Valid() && r.Parsed(b.lib)
      modifies this, b
      ensures Valid() && old(b.log) <= b.log && trace == old(trace) + [P.StageBytes(out)]
      ensures old(b.uncertain) ==> out.Err? && b.uncertain && b.log == old(b.log) && b.db == old(b.db)
      ensures out.Ok? && out.value.Committed? ==> WrittenAs(b.log, r, out.value.outcome)
      ensures out.Ok? && out.value.Committed? && b.log != old(b.log) ==> WrittenFrom(b.log, r, bytes)
      ensures !b.uncertain && e.Matches(r, Stage) && StageArgs(b.lib, Call(e.lease, r, bytes)) ==>
                out == StageReport(PhaseOf(old(b.log), r.ResourceIdentity()), e.lease, r, |old(b.db.journal)| >= 128)
      ensures e.operation != Stage || e.descriptor != r.descriptor || e.resource != r.ResourceIdentity() ==>
                out.Err? && b.log == old(b.log) && b.db == old(b.db)
      ensures b.clock >= old(b.clock)
      ensures old(b.Calm()) && !old(b.uncertain) && (PhaseOf(old(b.log), r.ResourceIdentity()).Untouched? ==> FreshKeys(old(b.db), e.lease)) ==>
                !b.uncertain
    {
      hide Execute;
      out := StageBackend(e, r, bytes);
      trace := trace + [P.StageBytes(out)];
    }

    method StageBackend(e: Effect, r: Request, bytes: Bytes) returns (out: Result<P.Commit<ObjectReceipt, Outcome>>)
      requires Valid() && r.Parsed(b.lib)
      modifies b
      ensures Valid() && old(b.log) <= b.log
      ensures old(b.uncertain) ==> out.Err? && b.uncertain && b.log == old(b.log) && b.db == old(b.db)
      ensures out.Ok? && out.value.Committed? ==> WrittenAs(b.log, r, out.value.outcome)
      ensures out.Ok? && out.value.Committed? && b.log != old(b.log) ==> WrittenFrom(b.log, r, bytes)
      ensures !b.uncertain && e.Matches(r, Stage) && StageArgs(b.lib, Call(e.lease, r, bytes)) ==>
                out == StageReport(PhaseOf(old(b.log), r.ResourceIdentity()), e.lease, r, |old(b.db.journal)| >= 128)
      ensures e.operation != Stage || e.descriptor != r.descriptor || e.resource != r.ResourceIdentity() ==>
                out.Err? && b.log == old(b.log) && b.db == old(b.db)
      ensures b.clock >= old(b.clock)
      ensures old(b.Calm()) && !old(b.uncertain) && (PhaseOf(old(b.log), r.ResourceIdentity()).Untouched? ==> FreshKeys(old(b.db), e.lease)) ==>
                !b.uncertain
    {
      hide Execute, VerifyReceiptBytes, Accepted;
      ReportIsSeen(b.lib, b.log, e.lease, r);
      StageAnswerIs(PhaseOf(b.log, r.ResourceIdentity()), e.lease, |b.db.journal| >= 128);
      hide PhaseOf;
      var _ :- r.VerifyBody(b.lib, bytes);
      if !e.Matches(r, Stage) {
        return Err(NotAvailable);
      }
      var outcome :- b.StageContext(e.lease, r, bytes);
      if outcome.None? {
        return Ok(P.CommitUnknown);
      }
      var receipt :- outcome.value.Receipt(r);
      return Ok(P.Committed(receipt, outcome.value));
    }

    /** Success means that the receipt is the selected one and that the bytes of the part's one
        commit, made under the effect's original, were read back and checked against it. */
    method ReadbackStorage(e: Effect, r: Request, receipt: ObjectReceipt) returns (out: Result<()>)
      requires Valid() && r.Parsed(b.lib)
      modifies this, b`uncertain, b`clock
      ensures Valid() && trace == old(trace) + [P.Readback(receipt, out.Ok?)]
      ensures old(b.uncertain) ==> b.uncertain
      ensures out.Ok? ==> !b.uncertain && r.Selected() == Ok(receipt) && HeldUnder(b.lib, b.log, e, r)
      ensures !b.uncertain && r.Selected() == Ok(receipt) && e.lease.Matches(r) && HeldUnder(b.lib, b.log, e, r) ==> out.Ok?
      ensures b.clock >= old(b.clock)
      ensures old(b.Calm()) && !old(b.uncertain) ==> !b.uncertain
    {
      hide Execute, Read;
      out := ReadBackend(e, r, receipt);
      trace := trace + [P.Readback(receipt, out.Ok?)];
    }

    method ReadBackend(e: Effect, r: Request, receipt: ObjectReceipt) returns (out: Result<()>)
      requires Valid() && r.Parsed(b.lib)
      modifies b`uncertain, b`clock
      ensures Valid()
      ensures old(b.uncertain) ==> b.uncertain
      ensures out.Ok? ==> !b.uncertain && r.Selected() == Ok(receipt) && HeldUnder(b.lib, b.log, e, r)
      ensures !b.uncertain && r.Selected() == Ok(receipt) && e.lease.Matches(r) && HeldUnder(b.lib, b.log, e, r) ==> out.Ok?
      ensures b.clock >= old(b.clock)
      ensures old(b.Calm()) && !old(b.uncertain) ==> !b.uncertain
    {
      hide Execute, Read, VerifyReceiptBytes, Accepted, Request.VerifyBody, PhaseOf;
      var selected :- r.Selected();
      if receipt != selected {
        return Err(NotAvailable);
      }
      if e.lease.Matches(r) && HeldUnder(b.lib, b.log, e, r) {
        WrittenReads(b.lib, b.log, e.lease, r);
      }
      var bytes :- b.ReadContext(e.lease, r, receipt.sizeBytes);
      BodyAcceptedExactly(b.lib, r, bytes);
      if r.VerifyBody(b.lib, bytes).Err? {
        return Err(NotAvailable);
      }
      return Ok(());
    }

    method TombstoneStorage(e: Effect, r: Request, c: CancelledResource) returns (out: Result<()>)
      requires Valid() && r.Parsed(b.lib)
      modifies this, b
      ensures Valid() && old(b.log) <= b.log && trace == old(trace) + [P.Tombstone(c, out.Ok?)]
      ensures old(b.uncertain) ==> out.Err? && b.uncertain && b.log == old(b.log) && b.db == old(b.db)
      ensures out.Ok? ==> out == Ok(()) && b.log == old(b.log) + [Tombstone(e.lease, r, c)]
      ensures b.db.journal == old(b.db.journal)
      ensures !b.uncertain && e.Matches(r, CleanupCancelled) && CleanupArgs(b.lib, e.lease, r, c) ==>
                out == TombstoneAnswer(old(b.log), r, c)
      ensures e.operation != CleanupCancelled || e.descriptor != r.descriptor || e.resource != r.ResourceIdentity() ==>
                out.Err? && b.log == old(b.log) && b.db == old(b.db)
      ensures b.clock >= old(b.clock)
      ensures old(b.Calm()) && !old(b.uncertain) ==> !b.uncertain
    {
      hide Execute;
      var objects := c.Objects(r);
      if objects.Err? || !e.Matches(r, CleanupCancelled) {
        out := Err(NotAvailable);
      } else {
        out := b.TombstoneContext(e.lease, r, objects.value, c);
        out := if out.Ok? then Ok(()) else out;
      }
      trace := trace + [P.Tombstone(c, out.Ok?)];
    }

    method FinishCleanupStorage(e: Effect, r: Request, c: CancelledResource) returns (out: Result<Option<Outcome>>)
      requires Valid() && r.Parsed(b.lib)
      modifies this, b
      ensures Valid() && old(b.log) <= b.log && trace == old(trace) + [P.FinishCleanup(c, out)]
      ensures old(b.uncertain) ==> out.Err? && b.uncertain && b.log == old(b.log) && b.db == old(b.db)
      ensures out.Ok? && out.value.Some? ==>
                ErasedAs(b.log, r, out.value.value) && PhaseOf(b.log, r.ResourceIdentity()).c == c
      ensures !b.uncertain && e.Matches(r, CleanupCancelled) && CleanupArgs(b.lib, e.lease, r, c) ==>
                out == CleanupAnswer(PhaseOf(old(b.log), r.ResourceIdentity()), e.lease, c, |old(b.db.journal)| >= 128)
      ensures e.operation != CleanupCancelled || e.descriptor != r.descriptor || e.resource != r.ResourceIdentity() ==>
                out.Err? && b.log == old(b.log) && b.db == old(b.db)
      ensures b.clock >= old(b.clock)
      ensures old(b.Calm()) && !old(b.uncertain) && (PhaseOf(old(b.log), r.ResourceIdentity()).Cancelled? ==> Unused(old(b.db), e.lease)) ==>
                !b.uncertain
    {
      hide Execute, Accepted;
      ReportIsSeen(b.lib, b.log, e.lease, r);
      hide PhaseOf;
      var objects := c.Objects(r);
      if objects.Err? || !e.Matches(r, CleanupCancelled) {
        out := Err(NotAvailable);
      } else {
        out := b.CleanupContext(e.lease, r, objects.value, c);
        if out.Ok? && out.value.Some? && c.VerifyCleaned(r, out.value.value).Err? {
          out := Err(c.VerifyCleaned(r, out.value.value).refusal);
        }
      }
      trace := trace + [P.FinishCleanup(c, out)];
    }

    // -------------------------------------------------------------- the service

    method Confirm(e: Effect, r: Request, ctl: Control, receipt: ObjectReceipt, outcome: Outcome, ghost before: Answers)
      returns (out: Result<Outcome>, ghost a: Answers)
      requires Valid() && r.Parsed(b.lib)
      modifies this, b`uncertain, b`clock
      ensures Valid()
      ensures a == before.(durable := a.durable, readback := a.readback, register := a.register)
      ensures out == P.Confirmed(a, receipt, outcome).result && trace == old(trace) + P.Confirmed(a, receipt, outcome).trace
      ensures old(b.uncertain) ==> out.Err? && b.uncertain
      ensures out.Ok? ==> out.value == outcome && Vouched(ctl, outcome) && HeldUnder(b.lib, b.log, e, r)
      ensures !b.uncertain && Confirmable(b.log, e, r, ctl, receipt, outcome) && e.operation.Stage? && ctl.register.Ok? ==>
                out == Ok(outcome)
      ensures b.clock >= old(b.clock)
      ensures old(b.Calm()) && !old(b.uncertain) ==> !b.uncertain
    {
      hide Execute, Confirmable, HeldUnder, VerifyDurable, RegisterOutcome, VouchedDurable;
      a := before;
      if Confirmable(b.log, e, r, ctl, receipt, outcome) {
        ConfirmableIsDurable(b.lib, b.log, e, r, ctl, receipt, outcome);
        ConfirmableMatches(b.log, e, r, ctl, receipt, outcome);
      }
      var durable := CheckDurable(ctl, e, r, receipt, outcome);
      a := a.(durable := durable);
      if durable.Err? {
        return Err(durable.refusal), a;
      }
      var readback := ReadbackStorage(e, r, receipt);
      a := a.(readback := readback);
      if readback.Err? {
        return Err(readback.refusal), a;
      }
      var register := RegisterWith(ctl, e, r, outcome);
      a := a.(register := register);
      if register.Err? {
        return Err(register.refusal), a;
      }
      return Ok(outcome), a;
    }

    /** Bytes asked for and checked. */
    method Hydrate(r: Request, body: Result<Bytes>, ghost before: Answers)
      returns (out: Result<Bytes>, ghost checked: Result<()>, ghost a: Answers)
      modifies this
      ensures a == before.(body := a.body, verifyBody := a.verifyBody)
      ensures checked == P.Hydrated(a).result && trace == old(trace) + P.Hydrated(a).trace
      ensures out.Ok? <==> checked.Ok?
      ensures out.Err? ==> checked == Err(out.refusal)
      ensures out.Ok? ==> out == body
      ensures out.Ok? <==> body.Ok? && |body.value| <= 1_048_576 && r.VerifyBody(b.lib, body.value).Ok?
    {
      a := before;
      var bytes := AskBody(body);
      a := a.(body := bytes);
      if bytes.Err? {
        return Err(bytes.refusal), Err(bytes.refusal), a;
      }
      if |bytes.value| > MAX_BODY {
        return Err(NotAvailable), Err(NotAvailable), a;
      }
      var verified := CheckBody(r, bytes.value);
      a := a.(verifyBody := verified);
      if verified.Err? {
        return Err(verified.refusal), verified, a;
      }
      return Ok(bytes.value), verified, a;
    }

    method StageInside(e: Effect, r: Request, ctl: Control, bytes: Bytes, ghost before: Answers)
      returns (out: Result<Outcome>, ghost a: Answers)
      requires Valid() && r.Parsed(b.lib)
      modifies this, b
      ensures Valid() && old(b.log) <= b.log
      ensures a == before.(stage := a.stage, durable := a.durable, readback := a.readback, register := a.register)
      ensures old(b.uncertain) ==> out.Err? && b.uncertain && b.log == old(b.log) && b.db == old(b.db)
      ensures out == P.Staging(a).result && trace == old(trace) + P.Staging(a).trace
      ensures out.Ok? ==> WrittenAs(b.log, r, out.value) && Vouched(ctl, out.value) && HeldUnder(b.lib, b.log, e, r)
      ensures out.Ok? && b.log != old(b.log) ==> WrittenFrom(b.log, r, bytes)
      ensures var answer := WriteAnswer(PhaseOf(old(b.log), r.ResourceIdentity()), e.lease, |old(b.db.journal)| >= 128);
              !b.uncertain && e.Matches(r, Stage) && StageArgs(b.lib, Call(e.lease, r, bytes)) && Backed(ctl, answer) ==>
                out == answer
      ensures b.clock >= old(b.clock)
      ensures old(b.Calm()) && !old(b.uncertain) && (PhaseOf(old(b.log), r.ResourceIdentity()).Untouched? ==> FreshKeys(old(b.db), e.lease)) ==>
                !b.uncertain
    {
      hide Execute, P.Confirmed, PhaseOf, Accepted, VerifyReceiptBytes, VouchedDurable, HeldUnder, WrittenFrom, FreshKeys;
      a := before;
      var commit := StageStorage(e, r, bytes);
      a := a.(stage := commit);
      if commit.Err? {
        return Err(commit.refusal), a;
      }
      if commit.value.CommitUnknown? {
        return Err(Refusal.Pending), a;
      }
      ghost var found, full := old(PhaseOf(b.log, r.ResourceIdentity())), |old(b.db.journal)| >= 128;
      if StageReport(found, e.lease, r, full) == commit {
        CommitIsConfirmable(e, r, ctl, commit.value, found, b.log, full);
      }
      out, a := Confirm(e, r, ctl, commit.value.receipt, commit.value.outcome, a);
    }

    method Proceed(e: Effect, r: Request, ctl: Control, seen: Seen, body: Result<Bytes>, ghost before: Answers)
      returns (out: Result<Outcome>, ghost a: Answers)
      requires Valid() && r.Parsed(b.lib) && (seen.Durable? || seen.Unseen?)
      requires seen.Durable? ==> WrittenAs(b.log, r, seen.outcome)
      modifies this, b
      ensures Valid() && old(b.log) <= b.log
      ensures a.startup == before.startup && a.effect == before.effect && a.observe == before.observe
      ensures old(b.uncertain) ==> out.Err? && b.uncertain && b.log == old(b.log) && b.db == old(b.db)
      ensures out == P.Proceeding(a, seen).result && trace == old(trace) + P.Proceeding(a, seen).trace
      ensures out.Ok? ==> WrittenAs(b.log, r, out.value) && Vouched(ctl, out.value) && HeldUnder(b.lib, b.log, e, r)
      ensures out.Ok? && b.log != old(b.log) ==> body.Ok? && WrittenFrom(b.log, r, body.value)
      ensures var answer := WriteAnswer(PhaseOf(old(b.log), r.ResourceIdentity()), e.lease, |old(b.db.journal)| >= 128);
              !b.uncertain && e.Matches(r, Stage) && body.Ok? && StageArgs(b.lib, Call(e.lease, r, body.value)) && Backed(ctl, answer) 
                && Ok(seen) == SeenIn(PhaseOf(old(b.log), r.ResourceIdentity()), e.lease, r) ==>
                out == answer
      ensures b.clock >= old(b.clock)
      ensures old(b.Calm()) && !old(b.uncertain) && (PhaseOf(old(b.log), r.ResourceIdentity()).Untouched? ==> FreshKeys(old(b.db), e.lease)) ==>
                !b.uncertain
    {
      hide Execute, Accepted, VerifyReceiptBytes, P.Confirmed, P.Hydrated, P.Staging, WrittenAs, WrittenFrom, HeldUnder, VouchedDurable,
        SeenIn, WriteAnswer, VerifyAnswer, PhaseOf, FreshKeys;
      if body.Ok? && StageArgs(b.lib, Call(e.lease, r, body.value)) {
        StageableIsShort(b.lib, Call(e.lease, r, body.value));
        SeenDecides(PhaseOf(b.log, r.ResourceIdentity()), e.lease, r, |b.db.journal| >= 128);
      }
      var bytes;
      ghost var checked;
      bytes, checked, a := Hydrate(r, body, before);
      if bytes.Err? {
        return Err(bytes.refusal), a;
      }
      ghost var hydrated := a;
      if seen.Durable? {
        out, a := Confirm(e, r, ctl, seen.receipt, seen.outcome, a);
      } else {
        out, a := StageInside(e, r, ctl, bytes.value, a);
      }
      P.HydratedAlike(hydrated, a);
    }

    method WriteInside(e: Effect, r: Request, ctl: Control, body: Result<Bytes>, ghost before: Answers)
      returns (out: Result<Outcome>, ghost a: Answers)
      requires Valid() && r.Parsed(b.lib)
      modifies this, b
      ensures Valid() && old(b.log) <= b.log
      ensures a.startup == before.startup && a.effect == before.effect
      ensures old(b.uncertain) ==> out.Err? && b.uncertain && b.log == old(b.log) && b.db == old(b.db)
      ensures out == P.WriteAction(a).result && trace == old(trace) + P.WriteAction(a).trace
      ensures out.Ok? ==> WrittenAs(b.log, r, out.value) && Vouched(ctl, out.value) && HeldUnder(b.lib, b.log, e, r)
      ensures out.Ok? && b.log != old(b.log) ==> body.Ok? && WrittenFrom(b.log, r, body.value)
      ensures var answer := WriteAnswer(PhaseOf(old(b.log), r.ResourceIdentity()), e.lease, |old(b.db.journal)| >= 128);
              !b.uncertain && e.Matches(r, Stage) && body.Ok? && StageArgs(b.lib, Call(e.lease, r, body.value)) && Backed(ctl, answer) ==>
                out == answer
      ensures b.clock >= old(b.clock)
      ensures old(b.Calm()) && !old(b.uncertain) && (PhaseOf(old(b.log), r.ResourceIdentity()).Untouched? ==> FreshKeys(old(b.db), e.lease)) ==>
                !b.uncertain
    {
      hide Execute, Accepted, VerifyReceiptBytes, P.Proceeding, WrittenAs, WrittenFrom, ErasedAs, HeldUnder, VouchedDurable,
        SeenIn, WriteAnswer, VerifyAnswer, PhaseOf, Backed, StageArgs, FreshKeys;
      a := before;
      if body.Ok? && StageArgs(b.lib, Call(e.lease, r, body.value)) {
        StageableIsShort(b.lib, Call(e.lease, r, body.value));
        SeenDecides(PhaseOf(b.log, r.ResourceIdentity()), e.lease, r, |b.db.journal| >= 128);
      }
      var seen := ObserveStorage(e, r);
      a := a.(observe := seen);
      if seen.Err? {
        return Err(seen.refusal), a;
      }
      if !seen.value.Durable? && !seen.value.Unseen? {
        return Err(if seen.value.Prepared? || seen.value.Unknown? then Refusal.Pending
                   else if seen.value.Corrupt? then Unavailable else Conflict), a;
      }
      out, a := Proceed(e, r, ctl, seen.value, body, a);
    }

    /** `write_or_reconcile`, composed.  The port calls it made are those of the parent's call,
        hence disciplined; a success is the outcome of the resource's one durable write. */
    method WriteOrReconcile(d: DeploymentBinding, refs: ConfigReferences, r: Request, ctl: Control, body: Result<Bytes>)
      returns (out: Result<Outcome>, ghost a: Answers)
      requires Valid() && r.Parsed(b.lib)
      modifies this, b
      ensures Valid() && old(b.log) <= b.log
      ensures out == P.WriteOrReconcile(a).result && trace == old(trace) + P.WriteOrReconcile(a).trace
      ensures Disciplined(trace[|old(trace)|..], out)
      ensures old(b.uncertain) ==> out.Err? && b.uncertain && b.log == old(b.log) && b.db == old(b.db)
      ensures !Attested(d, refs, r, Stage, ctl) ==> out.Err? && b.log == old(b.log) && b.db == old(b.db)
      ensures out.Ok? ==> WrittenAs(b.log, r, out.value) && Vouched(ctl, out.value)
      ensures out.Ok? && b.log != old(b.log) ==> body.Ok? && WrittenFrom(b.log, r, body.value)
      ensures out.Ok? ==> StoredFor(b.lib, b.log, r, out.value) && out.value.lineage == ctl.lease.original
      ensures var answer := WriteAnswer(PhaseOf(old(b.log), r.ResourceIdentity()), ctl.lease, |old(b.db.journal)| >= 128);
              && !b.uncertain && Attested(d, refs, r, Stage, ctl) && ctl.startup.Admit? && ctl.effect.Admit?
              && body.Ok? && Offered(b.lib, ctl.lease, r, body.value) && Backed(ctl, answer) ==>
                out == answer
      ensures b.clock >= old(b.clock)
      ensures old(b.Calm()) && !old(b.uncertain) && (PhaseOf(old(b.log), r.ResourceIdentity()).Untouched? ==> FreshKeys(old(b.db), ctl.lease)) ==>
                !b.uncertain
    {
      hide Execute, P.WriteAction, P.Follow, EffectGate, StartupGate, WrittenAs, P.Authorized, Attested, Offered, StageArgs, Vouched, HeldUnder, WrittenFrom, WriteAnswer, PhaseOf, Backed, Disciplined, StoredFor, FreshKeys;
      FencesAttest(d, refs, r, Stage, ctl);
      if body.Ok? {
        OfferedIsStageable(b.lib, ctl.lease, r, body.value);
      }
      var startup := EnterStartup(d, refs, ctl);
      a := Silent(startup, EffectGate(r, Stage, ctl));
      out := Err(NotAvailable);
      if !startup.Refuse? {
        var effect, e := EnterEffect(r, Stage, ctl);
        if !effect.Refuse? {
          out, a := WriteInside(e, r, ctl, body, a);
          LeaveEffect();
        }
        out := Left(effect, out);
        LeaveStartup();
      }
      out := Left(startup, out);
      FencedAs(a, Stage, P.WriteAction(a), old(trace));
      assert trace == old(trace) + P.WriteOrReconcile(a).trace;
      assert trace[|old(trace)|..] == P.WriteOrReconcile(a).trace;
      WriteTrace(a);
      if out.Ok? {
        HeldIsStored(b.lib, b.log, EffectOf(ctl, Stage), r, out.value);
      }
    }

    method Certify(e: Effect, r: Request, ctl: Control, c: CancelledResource, outcome: Outcome, ghost before: Answers)
      returns (out: Result<Outcome>, ghost a: Answers)
      modifies this
      ensures a == before.(cleaned := a.cleaned, register := a.register)
      ensures out == P.Certified(a, c, outcome).result && trace == old(trace) + P.Certified(a, c, outcome).trace
      ensures out.Ok? ==> out.value == outcome && c.VerifyCleaned(r, outcome).Ok?
      ensures out.Ok? ==> ctl.cleaned.Ok? && outcome.DiskCleaned? && outcome.lineage == ctl.cleaned.value && ctl.register.Ok?
      ensures e.Matches(r, CleanupCancelled) && Certifiable(ctl, r, c, outcome) ==> out == Ok(outcome)
    {
      a := before;
      var cleaned := CheckCleaned(ctl, e, r, c, outcome);
      a := a.(cleaned := cleaned);
      if cleaned.Err? {
        return Err(cleaned.refusal), a;
      }
      var register := RegisterWith(ctl, e, r, outcome);
      a := a.(register := register);
      if register.Err? {
        return Err(register.refusal), a;
      }
      return Ok(outcome), a;
    }

    method EraseInside(e: Effect, r: Request, ctl: Control, c: CancelledResource, ghost before: Answers)
      returns (out: Result<Outcome>, ghost a: Answers)
      requires Valid() && r.Parsed(b.lib)
      modifies this, b
      ensures Valid() && old(b.log) <= b.log
      ensures a == before.(tombstone := a.tombstone, finish := a.finish, cleaned := a.cleaned, register := a.register)
      ensures old(b.uncertain) ==> out.Err? && b.uncertain && b.log == old(b.log) && b.db == old(b.db)
      ensures out == P.Erasing(a, c).result && trace == old(trace) + P.Erasing(a, c).trace
      ensures out.Ok? ==> ErasedAs(b.log, r, out.value) && c.VerifyCleaned(r, out.value).Ok?
      ensures out.Ok? ==> ctl.cleaned.Ok? && out.value.DiskCleaned? && out.value.lineage == ctl.cleaned.value && ctl.register.Ok?
      ensures var answer := EraseAnswer(old(b.log), r, e.lease, c, |old(b.db.journal)| >= 128);
              !b.uncertain && e.Matches(r, CleanupCancelled) && CleanupArgs(b.lib, e.lease, r, c)
                && (answer.Ok? ==> Certifiable(ctl, r, c, answer.value)) ==>
                out == answer
      ensures b.clock >= old(b.clock)
      ensures old(b.Calm()) && !old(b.uncertain) && (!PhaseOf(old(b.log), r.ResourceIdentity()).Erased? ==> Unused(old(b.db), e.lease)) ==>
                !b.uncertain
    {
      hide Execute, P.Certified, EraseAnswer, TombstoneAnswer, CleanupAnswer, PhaseOf, ErasedAs, Certifiable, CleanupArgs,
        CancelledResource.VerifyCleaned, CancelledResource.Validate, Context.Matches, Effect.Matches, Unused;
      if CleanupArgs(b.lib, e.lease, r, c) {
        CleanupArgsMean(b.lib, e.lease, r, c);
        ReportIsSeen(b.lib, b.log, e.lease, r);
        EraseAnswerIs(b.log, r, e.lease, c, |b.db.journal| >= 128);
      }
      a := before;
      var tombstone := TombstoneStorage(e, r, c);
      a := a.(tombstone := tombstone);
      if tombstone.Err? {
        return Err(tombstone.refusal), a;
      }
      ErasedStays(old(b.log), e.lease, r, c);
      SameJournal(old(b.db), b.db, e.lease);
      var finish := FinishCleanupStorage(e, r, c);
      a := a.(finish := finish);
      if finish.Err? {
        return Err(finish.refusal), a;
      }
      if finish.value.None? {
        return Err(Refusal.Pending), a;
      }
      out, a := Certify(e, r, ctl, c, finish.value.value, a);
    }

    method CleanInside(e: Effect, r: Request, ctl: Control, c: CancelledResource, ghost before: Answers)
      returns (out: Result<Outcome>, ghost a: Answers)
      requires Valid() && r.Parsed(b.lib)
      modifies this, b
      ensures Valid() && old(b.log) <= b.log
      ensures a.startup == before.startup && a.effect == before.effect && a.cancelled == before.cancelled
      ensures old(b.uncertain) ==> out.Err? && b.uncertain && b.log == old(b.log) && b.db == old(b.db)
      ensures out == P.Cleaning(a, c).result && trace == old(trace) + P.Cleaning(a, c).trace
      ensures out.Ok? ==> ErasedAs(b.log, r, out.value) && c.VerifyCleaned(r, out.value).Ok?
      ensures out.Ok? ==> ctl.cleaned.Ok? && out.value.DiskCleaned? && out.value.lineage == ctl.cleaned.value && ctl.register.Ok?
      ensures var answer := CleanAnswer(old(b.log), r, e.lease, c, |old(b.db.journal)| >= 128);
              !b.uncertain && e.Matches(r, CleanupCancelled) && CleanupArgs(b.lib, e.lease, r, c)
                && (answer.Ok? ==> Certifiable(ctl, r, c, answer.value)) ==>
                out == answer
      ensures b.clock >= old(b.clock)
      ensures old(b.Calm()) && !old(b.uncertain) && (!PhaseOf(old(b.log), r.ResourceIdentity()).Erased? ==> Unused(old(b.db), e.lease)) ==>
                !b.uncertain
    {
      hide Execute, P.Certified, P.Erasing, ErasedAs, WrittenAs, SeenIn, EraseAnswer, CleanAnswer, PhaseOf, Certifiable, CleanupArgs,
        CancelledResource.VerifyCleaned, CancelledResource.Validate, Context.Matches, Effect.Matches, Unused;
      if CleanupArgs(b.lib, e.lease, r, c) {
        CleanupArgsMean(b.lib, e.lease, r, c);
        SeenDecidesCleanup(b.lib, b.log, e.lease, r, c, |b.db.journal| >= 128);
      }
      a := before;
      var seen := ObserveStorage(e, r);
      a := a.(observe := seen);
      if seen.Err? {
        return Err(seen.refusal), a;
      }
      if seen.value.Unknown? || seen.value.Prepared? {
        return Err(Refusal.Pending), a;
      }
      if seen.value.Corrupt? {
        return Err(Unavailable), a;
      }
      if seen.value.CancelledCleaned? {
        out, a := Certify(e, r, ctl, c, seen.value.outcome, a);
      } else {
        out, a := EraseInside(e, r, ctl, c, a);
      }
    }

    method CleanupInside(e: Effect, r: Request, ctl: Control, ghost before: Answers)
      returns (out: Result<Outcome>, ghost a: Answers)
      requires Valid() && r.Parsed(b.lib)
      modifies this, b
      ensures Valid() && old(b.log) <= b.log
      ensures a.startup == before.startup && a.effect == before.effect
      ensures old(b.uncertain) ==> out.Err? && b.uncertain && b.log == old(b.log) && b.db == old(b.db)
      ensures out == P.CleanupAction(a).result && trace == old(trace) + P.CleanupAction(a).trace
      ensures out.Ok? ==> ErasedAs(b.log, r, out.value) && VouchedCleaned(b.lib, ctl, r, out.value)
      ensures var known := CancelledOf(b.lib, ctl, e, r);
              known.Ok? ==>
                var answer := CleanAnswer(old(b.log), r, e.lease, known.value, |old(b.db.journal)| >= 128);
                !b.uncertain && CleanupArgs(b.lib, e.lease, r, known.value) && (answer.Ok? ==> Certifiable(ctl, r, known.value, answer.value)) ==>
                  out == answer
      ensures b.clock >= old(b.clock)
      ensures old(b.Calm()) && !old(b.uncertain) && (!PhaseOf(old(b.log), r.ResourceIdentity()).Erased? ==> Unused(old(b.db), e.lease)) ==>
                !b.uncertain
    {
      hide Execute, P.Cleaning, ErasedAs, CleanAnswer, PhaseOf, CleanupArgs, Certifiable, Unused;
      a := before;
      var cancelled := AskCancelled(ctl, e, r);
      a := a.(cancelled := cancelled);
      if cancelled.Err? {
        return Err(cancelled.refusal), a;
      }
      out, a := CleanInside(e, r, ctl, cancelled.value, a);
    }

    /** `cleanup`, composed. */
    method CleanUp(d: DeploymentBinding, refs: ConfigReferences, r: Request, ctl: Control)
      returns (out: Result<Outcome>, ghost a: Answers)
      requires Valid() && r.Parsed(b.lib)
      modifies this, b
      ensures Valid() && old(b.log) <= b.log
      ensures out == P.Cleanup(a).result && trace == old(trace) + P.Cleanup(a).trace
      ensures Disciplined(trace[|old(trace)|..], out)
      ensures old(b.uncertain) ==> out.Err? && b.uncertain && b.log == old(b.log) && b.db == old(b.db)
      ensures !Attested(d, refs, r, CleanupCancelled, ctl) ==> out.Err? && b.log == old(b.log) && b.db == old(b.db)
      ensures out.Ok? ==> ErasedAs(b.log, r, out.value) && VouchedCleaned(b.lib, ctl, r, out.value)
      ensures out.Ok? ==> BodiesLeft(b.db, r.CaptureId()) == {}
      ensures var known := if ctl.cancelledResource.Ok? then ParseCancelled(b.lib, ctl.cancelledResource.value, r) else Err(NotAvailable);
              && !b.uncertain && Attested(d, refs, r, CleanupCancelled, ctl) && ctl.startup.Admit? && ctl.effect.Admit?
              && ctl.lease.Matches(r) && known.Ok? && known.value.VerifyCleaned(r, ctl.lease.proposal).Ok? ==>
                var answer := CleanAnswer(old(b.log), r, ctl.lease, known.value, |old(b.db.journal)| >= 128);
                BackedCleaned(b.lib, ctl, r, answer) ==> out == answer
      ensures b.clock >= old(b.clock)
      ensures old(b.Calm()) && !old(b.uncertain) && (!PhaseOf(old(b.log), r.ResourceIdentity()).Erased? ==> Unused(old(b.db), ctl.lease)) ==>
                !b.uncertain
    {
      hide Execute, P.CleanupAction, P.Follow, EffectGate, StartupGate, BodiesLeft, P.Authorized, Disciplined, CleanAnswer, PhaseOf, ErasedAs,
        Attested, CleanupArgs, VouchedCleaned, Certifiable, CancelledOf, BackedCleaned, Unused;
      FencesAttest(d, refs, r, CleanupCancelled, ctl);
      if Attested(d, refs, r, CleanupCancelled, ctl) && ctl.lease.Matches(r) && ctl.cancelledResource.Ok? {
        ghost var known := ParseCancelled(b.lib, ctl.cancelledResource.value, r);
        if known.Ok? && known.value.VerifyCleaned(r, ctl.lease.proposal).Ok? {
          CleanupIsOffered(b.lib, d, refs, r, ctl, known.value,
            CleanAnswer(b.log, r, ctl.lease, known.value, |b.db.journal| >= 128));
        }
      }
      var startup := EnterStartup(d, refs, ctl);
      a := Silent(startup, EffectGate(r, CleanupCancelled, ctl));
      out := Err(NotAvailable);
      if !startup.Refuse? {
        var effect, e := EnterEffect(r, CleanupCancelled, ctl);
        if !effect.Refuse? {
          out, a := CleanupInside(e, r, ctl, a);
          LeaveEffect();
        }
        out := Left(effect, out);
        LeaveStartup();
      }
      out := Left(startup, out);
      FencedAs(a, CleanupCancelled, P.CleanupAction(a), old(trace));
      assert trace == old(trace) + P.Cleanup(a).trace;
      assert trace[|old(trace)|..] == P.Cleanup(a).trace;
      CleanupTrace(a);
      if out.Ok? {
        CleanedHasNoBodies(b.lib, b.log, ctl, r, out.value);
      }
    }

    method VerifyInside(e: Effect, r: Request, ctl: Control, ghost before: Answers)
      returns (out: Result<Outcome>, ghost a: Answers)
      requires Valid() && r.Parsed(b.lib)
      modifies this, b`uncertain, b`clock
      ensures Valid() && a.startup == before.startup && a.effect == before.effect
      ensures old(b.uncertain) ==> out.Err? && b.uncertain
      ensures out == P.VerifyAction(a).result && trace == old(trace) + P.VerifyAction(a).trace
      ensures out.Ok? ==> WrittenAs(b.log, r, out.value) && VouchedDurable(ctl, out.value) && HeldUnder(b.lib, b.log, e, r)
      ensures var answer := VerifyAnswer(PhaseOf(b.log, r.ResourceIdentity()), e.lease);
              !b.uncertain && e.Matches(r, Verify) && e.lease.Matches(r) && r.selected.Some?
                && (answer.Ok? ==> VouchedDurable(ctl, answer.value)) ==>
                out == answer
      ensures b.clock >= old(b.clock)
      ensures old(b.Calm()) && !old(b.uncertain) ==> !b.uncertain
    {
      hide Execute, WrittenAs, ErasedAs, HeldUnder, VouchedDurable, VerifyDurable, Confirmable, SeenIn, WriteAnswer, VerifyAnswer, PhaseOf;
      if r.selected.Some? {
        SeenDecides(PhaseOf(b.log, r.ResourceIdentity()), e.lease, r, false);
      }
      a := before;
      var seen := ObserveStorage(e, r);
      a := a.(observe := seen);
      if seen.Err? {
        return Err(seen.refusal), a;
      }
      if !seen.value.Durable? {
        return Err(if seen.value.Prepared? || seen.value.Unknown? then Refusal.Pending
                   else if seen.value.Corrupt? then Unavailable else NotAvailable), a;
      }
      DurableIsConfirmable(b.log, e, r, ctl, seen.value.receipt, seen.value.outcome);
      if Confirmable(b.log, e, r, ctl, seen.value.receipt, seen.value.outcome) {
        ConfirmableIsDurable(b.lib, b.log, e, r, ctl, seen.value.receipt, seen.value.outcome);
      }
      var durable := CheckDurable(ctl, e, r, seen.value.receipt, seen.value.outcome);
      a := a.(durable := durable);
      if durable.Err? {
        return Err(durable.refusal), a;
      }
      var readback := ReadbackStorage(e, r, seen.value.receipt);
      a := a.(readback := readback);
      return if readback.Err? then Err(readback.refusal) else Ok(seen.value.outcome), a;
    }

    /** `verify_exact_readback`, composed: it changes no table, and a success was read back and
        is the write the control plane knows. */
    method VerifyExactReadback(d: DeploymentBinding, refs: ConfigReferences, r: Request, ctl: Control)
      returns (out: Result<Outcome>, ghost a: Answers)
      requires Valid() && r.Parsed(b.lib)
      modifies this, b`uncertain, b`clock
      ensures Valid()
      ensures out == P.VerifyExactReadback(a).result && trace == old(trace) + P.VerifyExactReadback(a).trace
      ensures var end := P.Follow(P.Closed(), trace[|old(trace)|..]);
              && end.Some? && !end.value.startup && end.value.effect.None?
              && !end.value.staged && end.value.tombstoned.None? && end.value.registered.None?
              && (out.Ok? ==> end.value.confirmed == Some(out.value))
      ensures old(b.uncertain) ==> out.Err? && b.uncertain
      ensures !Attested(d, refs, r, Verify, ctl) ==> out.Err?
      ensures out.Ok? ==> WrittenAs(b.log, r, out.value) && VouchedDurable(ctl, out.value)
      ensures out.Ok? ==> StoredFor(b.lib, b.log, r, out.value) && out.value.lineage == ctl.lease.original
      ensures var answer := VerifyAnswer(PhaseOf(b.log, r.ResourceIdentity()), ctl.lease);
              && !b.uncertain && Attested(d, refs, r, Verify, ctl) && ctl.startup.Admit? && ctl.effect.Admit?
              && ctl.lease.Matches(r) && (answer.Ok? ==> VouchedDurable(ctl, answer.value)) ==>
                out == answer
      ensures b.clock >= old(b.clock)
      ensures old(b.Calm()) && !old(b.uncertain) ==> !b.uncertain
    {
      hide Execute, P.VerifyAction, P.Follow, EffectGate, StartupGate, WrittenAs, P.Authorized, VouchedDurable, HeldUnder, StoredFor, VerifyAnswer, PhaseOf;
      FencesAttest(d, refs, r, Verify, ctl);
      var startup := EnterStartup(d, refs, ctl);
      a := Silent(startup, EffectGate(r, Verify, ctl));
      out := Err(NotAvailable);
      if !startup.Refuse? {
        var effect, e := EnterEffect(r, Verify, ctl);
        if !effect.Refuse? {
          out, a := VerifyInside(e, r, ctl, a);
          LeaveEffect();
        }
        out := Left(effect, out);
        LeaveStartup();
      }
      out := Left(startup, out);
      FencedAs(a, Verify, P.VerifyAction(a), old(trace));
      P.VerifyIsDisciplined(a);
      assert trace == old(trace) + P.VerifyExactReadback(a).trace;
      assert trace[|old(trace)|..] == P.VerifyExactReadback(a).trace;
      if out.Ok? {
        HeldIsStored(b.lib, b.log, EffectOf(ctl, Verify), r, out.value);
      }
    }

    /** `status`, composed. */
    method StatusOf(d: DeploymentBinding, refs: ConfigReferences, r: Request, ctl: Control)
      returns (out: Result<Seen>, ghost a: Answers)
      requires Valid() && r.Parsed(b.lib)
      modifies this, b`uncertain, b`clock
      ensures Valid()
      ensures out == P.StatusOf(a).result && trace == old(trace) + P.StatusOf(a).trace
      ensures var end := P.Follow(P.Closed(), trace[|old(trace)|..]);
              && end.Some? && !end.value.startup && end.value.effect.None?
              && !end.value.staged && end.value.tombstoned.None? && end.value.registered.None?
      ensures old(b.uncertain) ==> out.Err? && b.uncertain
      ensures !Attested(d, refs, r, Status, ctl) ==> out.Err?
      ensures !b.uncertain && Attested(d, refs, r, Status, ctl) && ctl.startup.Admit? && ctl.effect.Admit? && ctl.lease.Matches(r) ==>
                out == SeenIn(PhaseOf(b.log, r.ResourceIdentity()), ctl.lease, r)
      ensures out.Ok? ==> !b.uncertain && out == SeenIn(PhaseOf(b.log, r.ResourceIdentity()), ctl.lease, r)
      ensures b.clock >= old(b.clock)
      ensures old(b.Calm()) && !old(b.uncertain) ==> !b.uncertain
    {
      hide Execute, EffectGate, StartupGate, PhaseOf, SeenIn, P.Authorized, P.Follow, WrittenAs, ErasedAs;
      FencesAttest(d, refs, r, Status, ctl);
      var startup := EnterStartup(d, refs, ctl);
      a := Silent(startup, EffectGate(r, Status, ctl));
      out := Err(NotAvailable);
      if !startup.Refuse? {
        var effect, e := EnterEffect(r, Status, ctl);
        if !effect.Refuse? {
          out := ObserveStorage(e, r);
          a := a.(observe := out);
          LeaveEffect();
        }
        out := Left(effect, out);
        LeaveStartup();
      }
      out := Left(startup, out);
      FencedAs(a, Status, P.Ask(P.Observe(a.observe), a.observe), old(trace));
      P.StatusIsDisciplined(a);
      assert trace == old(trace) + P.StatusOf(a).trace;
      assert trace[|old(trace)|..] == P.StatusOf(a).trace;
    }
  }

  // ---------------------------------------------------------------- outcome agreement

  /** A resource found written twice in a run was written once, and the journal holds exactly
      the row of that write. */
  lemma WrittenOnce(lib: Library, log: seq<Event>, more: seq<Event>, r: Request, first: Outcome, second: Outcome)
    requires Execute(lib, log + more).Some?
    requires WrittenAs(log, r, first) && WrittenAs(log + more, r, second)
    ensures first == second
    ensures var rows := RowsFor(Execute(lib, log + more).value.tables.journal, r.ResourceIdentity());
            && |rows| == 1
            && rows[0] == JournalRow(first.lineage.ownerReceiptId, PhaseOf(log, r.ResourceIdentity()).call.e.lease,
                                     first.lineage.localSeq, r.ResourceIdentity(), first)
  {
    hide Execute;
    RunLeads(lib, log, more, r.ResourceIdentity());
    JournalIsExact(lib, log + more, r.ResourceIdentity());
  }

  /** A capture found erased twice was erased once: repeated clean-ups return one outcome. */
  lemma ErasedOnce(lib: Library, log: seq<Event>, more: seq<Event>, r: Request, first: Outcome, second: Outcome)
    requires Execute(lib, log + more).Some? && r.selected.None?
    requires ErasedAs(log, r, first) && ErasedAs(log + more, r, second)
    ensures first == second
    ensures var rows := RowsFor(Execute(lib, log + more).value.tables.journal, r.ResourceIdentity());
            && |rows| == 1
            && rows[0] == JournalRow(first.lineage.ownerReceiptId, PhaseOf(log, r.ResourceIdentity()).under.lease,
                                     first.lineage.localSeq, r.ResourceIdentity(), first)
  {
    hide Execute;
    RunLeads(lib, log, more, r.ResourceIdentity());
    JournalIsExact(lib, log + more, r.ResourceIdentity());
  }

  /** Anything that can happen to the store between two calls of interest. */
  datatype Act =
    | Writing(d: DeploymentBinding, refs: ConfigReferences, r: Request, ctl: Control, body: Result<Bytes>)
    | Cleaning(d: DeploymentBinding, refs: ConfigReferences, r: Request, ctl: Control)
    | Verifying(d: DeploymentBinding, refs: ConfigReferences, r: Request, ctl: Control)
    | Asking(d: DeploymentBinding, refs: ConfigReferences, r: Request, ctl: Control)
    | Restarting

  ghost predicate Parsed(lib: Library, acts: seq<Act>) {
    forall i :: 0 <= i < |acts| && !acts[i].Restarting? ==> acts[i].r.Parsed(lib)
  }

  /** Any calls and restarts, one after another.  An uncertain backend refuses all of them and
      changes nothing until it is reopened. */
  method Drive(p: Ports, acts: seq<Act>)
    requires p.Valid() && Parsed(p.b.lib, acts)
    modifies p, p.b
    ensures p.Valid() && old(p.b.log) <= p.b.log
    ensures old(p.b.uncertain) && (forall a :: a in acts ==> !a.Restarting?) ==>
              p.b.uncertain && p.b.log == old(p.b.log) && p.b.db == old(p.b.db)
  {
    hide Execute;
    for i := 0 to |acts|
      invariant p.Valid() && old(p.b.log) <= p.b.log
      invariant old(p.b.uncertain) && (forall a :: a in acts ==> !a.Restarting?) ==>
                  p.b.uncertain && p.b.log == old(p.b.log) && p.b.db == old(p.b.db)
    {
      match acts[i] {
        case Writing(d, refs, r, ctl, body) => var _, _ := p.WriteOrReconcile(d, refs, r, ctl, body);
        case Cleaning(d, refs, r, ctl) => var _, _ := p.CleanUp(d, refs, r, ctl);
        case Verifying(d, refs, r, ctl) => var _, _ := p.VerifyExactReadback(d, refs, r, ctl);
        case Asking(d, refs, r, ctl) => var _, _ := p.StatusOf(d, refs, r, ctl);
        case Restarting => p.b.Reopen();
      }
    }
  }

  /** Outcome agreement end to end: two successful writes of one request return the same
      outcome, whatever ran in between (failed writes, lost acknowledgements, clean-ups,
      restarts), and it is the outcome of the resource's one journal row. */
  method WriteTwice(p: Ports, r: Request, one: Act, between: seq<Act>, two: Act)
    returns (first: Result<Outcome>, second: Result<Outcome>)
    requires p.Valid() && Parsed(p.b.lib, between)
    requires one.Writing? && two.Writing? && one.r == r && two.r == r && r.Parsed(p.b.lib)
    modifies p, p.b
    ensures first.Ok? && second.Ok? ==>
              && first == second
              && var rows := RowsFor(p.b.db.journal, r.ResourceIdentity());
                 |rows| == 1 && rows[0].outcome == first.value
  {
    hide Execute, RowsFor;
    ghost var answers;
    first, answers := p.WriteOrReconcile(one.d, one.refs, r, one.ctl, one.body);
    ghost var log := p.b.log;
    Drive(p, between);
    second, answers := p.WriteOrReconcile(two.d, two.refs, r, two.ctl, two.body);
    if first.Ok? && second.Ok? {
      assert log + p.b.log[|log|..] == p.b.log;
      WrittenOnce(p.b.lib, log, p.b.log[|log|..], r, first.value, second.value);
    }
  }
}
