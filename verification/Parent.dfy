/**
 The parent service over arbitrary ports (`parent_adapter.rs`).  In one call every port is
 asked at most once, so a record of answers is every behaviour the ports can show; the call
 is then a result and the trace of port calls it made.  A monitor that knows nothing of the
 service's code says which traces are disciplined.
 */
module Parent {
  import opened Results
  import opened Native

  datatype Seen<R, O> =
    | Unseen
    | Prepared
    | Durable(receipt: R, outcome: O)
    | CleanupPending
    | CancelledCleaned(outcome: O)
    | Corrupt
    | Unknown

  datatype Commit<R, O> = Committed(receipt: R, outcome: O) | CommitUnknown

  /** A scoped callback: refuse without running it, run it, or run it and then fail. */
  datatype Gate = Refuse(why: Refusal) | Admit | AdmitThenFail(why: Refusal)

  datatype Answers<R, O, C> = Answers(
    startup: Gate, effect: Gate,
    observe: Result<Seen<R, O>>, body: Result<Bytes>, verifyBody: Result<()>,
    stage: Result<Commit<R, O>>, durable: Result<()>, readback: Result<()>, register: Result<()>,
    cancelled: Result<C>, tombstone: Result<()>, finish: Result<Option<O>>, cleaned: Result<()>)

  /** One port call with its answer. */
  datatype Port<R, O, C> =
    | EnterStartup
    | LeaveStartup
    | EnterEffect(op: Operation)
    | LeaveEffect
    | Observe(seen: Result<Seen<R, O>>)
    | Body(bytes: Result<Bytes>)
    | VerifyBody(ok: bool)
    | StageBytes(commit: Result<Commit<R, O>>)
    | VerifyDurable(receipt: R, outcome: O, ok: bool)
    | Readback(receipt: R, ok: bool)
    | Register(outcome: O, ok: bool)
    | Cancelled(proof: Result<C>)
    | Tombstone(c: C, ok: bool)
    | FinishCleanup(c: C, done: Result<Option<O>>)
    | VerifyCleaned(c: C, outcome: O, ok: bool)

  datatype Run<T, R, O, C> = Run(result: Result<T>, trace: seq<Port<R, O, C>>)

  // ---------------------------------------------------------------- the service

  function Ask<T, R, O, C>(port: Port<R, O, C>, answer: Result<T>): Run<T, R, O, C> {
    Run(answer, [port])
  }

  function Give<T, R, O, C>(result: Result<T>): Run<T, R, O, C> {
    Run(result, [])
  }

  function Then<T, U, R, O, C>(first: Run<T, R, O, C>, rest: Run<U, R, O, C>): Run<U, R, O, C> {
    match first.result
    case Err(why) => Run(Err(why), first.trace)
    case Ok(_) => Run(rest.result, first.trace + rest.trace)
  }

  function Fenced<T, R, O, C>(gate: Gate, enter: Port<R, O, C>, leave: Port<R, O, C>, inner: Run<T, R, O, C>): Run<T, R, O, C> {
    match gate
    case Refuse(why) => Run(Err(why), [])
    case Admit => Run(inner.result, [enter] + inner.trace + [leave])
    case AdmitThenFail(why) => Run(Err(why), [enter] + inner.trace + [leave])
  }

  function Authorized<T, R, O, C>(a: Answers<R, O, C>, op: Operation, action: Run<T, R, O, C>): Run<T, R, O, C> {
    Fenced(a.startup, EnterStartup, LeaveStartup, Fenced(a.effect, EnterEffect(op), LeaveEffect, action))
  }

  function Confirmed<R, O, C>(a: Answers<R, O, C>, receipt: R, outcome: O): Run<O, R, O, C> {
    Then(Ask(VerifyDurable(receipt, outcome, a.durable.Ok?), a.durable),
    Then(Ask(Readback(receipt, a.readback.Ok?), a.readback),
    Then(Ask(Register(outcome, a.register.Ok?), a.register),
    Give(Ok(outcome)))))
  }

  function Hydrated<R, O, C>(a: Answers<R, O, C>): Run<(), R, O, C> {
    Then(Ask(Body(a.body), a.body),
    Then(Give(if a.body.Ok? && |a.body.value| > MAX_BODY then Err(NotAvailable) else Ok(())),
    Ask(VerifyBody(a.verifyBody.Ok?), a.verifyBody)))
  }

  /** The one write, of bytes already checked. */
  function Staging<R, O, C>(a: Answers<R, O, C>): Run<O, R, O, C> {
    Then(Ask(StageBytes(a.stage), a.stage),
      match a.stage
      case Ok(Committed(receipt, outcome)) => Confirmed(a, receipt, outcome)
      case _ => Give(Err(Refusal.Pending)))
  }

  /** A part seen fresh or durable: its bytes, then the write or the confirmation. */
  function Proceeding<R, O, C>(a: Answers<R, O, C>, seen: Seen<R, O>): Run<O, R, O, C> {
    Then(Hydrated(a), if seen.Durable? then Confirmed(a, seen.receipt, seen.outcome) else Staging(a))
  }

  function WriteAction<R, O, C>(a: Answers<R, O, C>): Run<O, R, O, C> {
    Then(Ask(Observe(a.observe), a.observe),
      match a.observe
      case Ok(Durable(receipt, outcome)) => Proceeding(a, Durable(receipt, outcome))
      case Ok(Unseen) => Proceeding(a, Unseen)
      case Ok(Prepared) => Give(Err(Refusal.Pending))
      case Ok(Unknown) => Give(Err(Refusal.Pending))
      case Ok(Corrupt) => Give(Err(Unavailable))
      case _ => Give(Err(Conflict)))
  }

  function VerifyAction<R, O, C>(a: Answers<R, O, C>): Run<O, R, O, C> {
    Then(Ask(Observe(a.observe), a.observe),
      match a.observe
      case Ok(Durable(receipt, outcome)) =>
        Then(Ask(VerifyDurable(receipt, outcome, a.durable.Ok?), a.durable),
        Then(Ask(Readback(receipt, a.readback.Ok?), a.readback),
        Give(Ok(outcome))))
      case Ok(Prepared) => Give(Err(Refusal.Pending))
      case Ok(Unknown) => Give(Err(Refusal.Pending))
      case Ok(Corrupt) => Give(Err(Unavailable))
      case _ => Give(Err(NotAvailable)))
  }

  function Certified<R, O, C>(a: Answers<R, O, C>, c: C, outcome: O): Run<O, R, O, C> {
    Then(Ask(VerifyCleaned(c, outcome, a.cleaned.Ok?), a.cleaned),
    Then(Ask(Register(outcome, a.register.Ok?), a.register),
    Give(Ok(outcome))))
  }

  /** The erasing half of a clean-up, from an observation that allows it. */
  function Erasing<R, O, C>(a: Answers<R, O, C>, c: C): Run<O, R, O, C> {
    Then(Ask(Tombstone(c, a.tombstone.Ok?), a.tombstone),
    Then(Ask(FinishCleanup(c, a.finish), a.finish),
      match a.finish
      case Ok(Some(outcome)) => Certified(a, c, outcome)
      case _ => Give(Err(Refusal.Pending))))
  }

  /** What the inventory calls for, under an authenticated cancellation. */
  function Cleaning<R, O, C>(a: Answers<R, O, C>, c: C): Run<O, R, O, C> {
    Then(Ask(Observe(a.observe), a.observe),
      match a.observe
      case Ok(Unknown) => Give(Err(Refusal.Pending))
      case Ok(Prepared) => Give(Err(Refusal.Pending))
      case Ok(Corrupt) => Give(Err(Unavailable))
      case Ok(CancelledCleaned(outcome)) => Certified(a, c, outcome)
      case _ => Erasing(a, c))
  }

  function CleanupAction<R, O, C>(a: Answers<R, O, C>): Run<O, R, O, C> {
    Then(Ask(Cancelled(a.cancelled), a.cancelled),
      match a.cancelled
      case Err(why) => Give(Err(why))
      case Ok(c) => Cleaning(a, c))
  }

  function WriteOrReconcile<R, O, C>(a: Answers<R, O, C>): Run<O, R, O, C> {
    Authorized(a, Stage, WriteAction(a))
  }

  function VerifyExactReadback<R, O, C>(a: Answers<R, O, C>): Run<O, R, O, C> {
    Authorized(a, Verify, VerifyAction(a))
  }

  function StatusOf<R, O, C>(a: Answers<R, O, C>): Run<Seen<R, O>, R, O, C> {
    Authorized(a, Status, Ask(Observe(a.observe), a.observe))
  }

  function Cleanup<R, O, C>(a: Answers<R, O, C>): Run<O, R, O, C> {
    Authorized(a, CleanupCancelled, CleanupAction(a))
  }

  // ---------------------------------------------------------------- the monitor

  /** What a trace has shown so far. */
  datatype Watch<R, O, C> = Watch(
    startup: bool, effect: Option<Operation>,
    seen: Option<Seen<R, O>>, checkedBody: bool, staged: bool,
    offered: Option<(R, O)>, verified: Option<(R, O)>, confirmed: Option<O>,
    cancelled: Option<C>, tombstoned: Option<C>, finished: Option<O>, certified: Option<O>,
    registered: Option<O>)

  function Closed<R, O, C>(): Watch<R, O, C> {
    Watch(false, None, None, false, false, None, None, None, None, None, None, None, None)
  }

  predicate Inside<R, O, C>(w: Watch<R, O, C>) {
    w.startup && w.effect.Some?
  }

  /** The rules, one port call at a time: `None` is a violation. */
  function Step<R(==), O(==), C(==)>(w: Watch<R, O, C>, p: Port<R, O, C>): Option<Watch<R, O, C>> {
    match p
    case EnterStartup => if w.startup then None else Some(w.(startup := true))
    case LeaveStartup => if !w.startup || w.effect.Some? then None else Some(w.(startup := false))
    case EnterEffect(op) => if !w.startup || w.effect.Some? then None else Some(w.(effect := Some(op)))
    case LeaveEffect => if w.effect.None? then None else Some(w.(effect := None))
    case Observe(seen) =>
      // One look at the inventory; for a clean-up only after the cancellation is known.
      if !Inside(w) || w.seen.Some? || (w.effect == Some(CleanupCancelled) && w.cancelled.None?) then None
      else if seen.Err? then Some(w)
      else Some(w.(seen := Some(seen.value),
                   offered := if seen.value.Durable? then Some((seen.value.receipt, seen.value.outcome)) else None,
                   finished := if seen.value.CancelledCleaned? then Some(seen.value.outcome) else None))
    case Body(_) =>
      // Private bytes are hydrated only for a fresh or a durable part.
      if !Inside(w) || w.effect != Some(Stage) || w.seen.None? || !(w.seen.value.Unseen? || w.seen.value.Durable?) then None
      else Some(w)
    case VerifyBody(ok) => if !Inside(w) then None else Some(w.(checkedBody := ok))
    case StageBytes(commit) =>
      // One write, after `Unseen`, of verified bytes.
      if !Inside(w) || w.seen != Some(Unseen) || w.staged || !w.checkedBody then None
      else Some(w.(staged := true,
                   offered := if commit.Ok? && commit.value.Committed? then Some((commit.value.receipt, commit.value.outcome)) else None))
    case VerifyDurable(receipt, outcome, ok) =>
      if !Inside(w) || w.offered != Some((receipt, outcome)) then None
      else Some(w.(verified := if ok then Some((receipt, outcome)) else None))
    case Readback(receipt, ok) =>
      // Bytes are read back against the receipt just verified.
      if !Inside(w) || w.verified.None? || w.verified.value.0 != receipt then None
      else Some(w.(confirmed := if ok then Some(w.verified.value.1) else None))
    case Register(outcome, ok) =>
      // Registration once, of the confirmed write or the certified clean-up.
      if !Inside(w) || w.registered.Some? || !(w.confirmed == Some(outcome) || w.certified == Some(outcome)) then None
      else Some(w.(registered := if ok then Some(outcome) else None))
    case Cancelled(proof) =>
      if !Inside(w) || w.effect != Some(CleanupCancelled) then None
      else Some(w.(cancelled := if proof.Ok? then Some(proof.value) else None))
    case Tombstone(c, ok) =>
      // Nothing in doubt is cancelled, and only under the authenticated cancellation.
      if !Inside(w) || w.cancelled != Some(c) || w.seen.None?
         || !(w.seen.value.Unseen? || w.seen.value.Durable? || w.seen.value.CleanupPending?) then None
      else Some(w.(tombstoned := if ok then Some(c) else None))
    case FinishCleanup(c, done) =>
      // The tombstone comes before anything is erased.
      if !Inside(w) || w.tombstoned != Some(c) then None
      else Some(w.(finished := if done.Ok? then done.value else None))
    case VerifyCleaned(c, outcome, ok) =>
      if !Inside(w) || w.cancelled != Some(c) || w.finished != Some(outcome) then None
      else Some(w.(certified := if ok then Some(outcome) else None))
  }

  function Follow<R(==), O(==), C(==)>(w: Watch<R, O, C>, trace: seq<Port<R, O, C>>): Option<Watch<R, O, C>>
    decreases |trace|
  {
    if trace == [] then Some(w)
    else
      match Step(w, trace[0])
      case None => None
      case Some(next) => Follow(next, trace[1..])
  }

  // ---------------------------------------------------------------- every trace is disciplined

  lemma AskThen<T, U, R, O, C>(w: Watch<R, O, C>, port: Port<R, O, C>, answer: Result<T>, rest: Run<U, R, O, C>)
    ensures var run := Then(Ask(port, answer), rest);
            && Follow(w, run.trace) ==
                 (if Step(w, port).None? then None
                  else if answer.Err? then Some(Step(w, port).value)
                  else Follow(Step(w, port).value, rest.trace))
            && run.result == (if answer.Err? then Err(answer.refusal) else rest.result)
  {
    assert ([port] + rest.trace)[1..] == rest.trace;
    assert [port][1..] == [];
    if Step(w, port).Some? {
      assert Follow(Step(w, port).value, []) == Some(Step(w, port).value);
    }
  }

  lemma {:induction false} FollowConcat<R, O, C>(w: Watch<R, O, C>, s: seq<Port<R, O, C>>, t: seq<Port<R, O, C>>)
    ensures Follow(w, s + t) == (if Follow(w, s).Some? then Follow(Follow(w, s).value, t) else None)
    decreases |s|
  {
    if s == [] {
      assert s + t == t;
    } else {
      assert (s + t)[0] == s[0] && (s + t)[1..] == s[1..] + t;
      if Step(w, s[0]).Some? {
        FollowConcat(Step(w, s[0]).value, s[1..], t);
      }
    }
  }

  /** A stretch of trace is disciplined from `w`, stays inside both fences, and a success
      leaves `outcome` registered. */
  ghost predicate Obeys<O, R, C>(w: Watch<R, O, C>, run: Run<O, R, O, C>) {
    var end := Follow(w, run.trace);
    && end.Some? && end.value.startup == w.startup && end.value.effect == w.effect
    && (run.result.Ok? ==> end.value.registered == Some(run.result.value))
  }

  lemma ConfirmedObeys<R, O, C>(w: Watch<R, O, C>, a: Answers<R, O, C>, receipt: R, outcome: O)
    requires Inside(w) && w.offered == Some((receipt, outcome)) && w.registered.None?
    ensures Obeys(w, Confirmed(a, receipt, outcome))
  {
    var third := Then(Ask(Register(outcome, a.register.Ok?), a.register), Give(Ok(outcome)));
    var second := Then(Ask(Readback(receipt, a.readback.Ok?), a.readback), third);
    var w1 := Step(w, VerifyDurable(receipt, outcome, a.durable.Ok?)).value;
    AskThen(w, VerifyDurable(receipt, outcome, a.durable.Ok?), a.durable, second);
    if a.durable.Ok? {
      AskThen(w1, Readback(receipt, a.readback.Ok?), a.readback, third);
      if a.readback.Ok? {
        var w2 := Step(w1, Readback(receipt, true)).value;
        AskThen(w2, Register(outcome, a.register.Ok?), a.register, Give(Ok(outcome)));
      }
    }
  }

  lemma CertifiedObeys<R, O, C>(w: Watch<R, O, C>, a: Answers<R, O, C>, c: C, outcome: O)
    requires Inside(w) && w.cancelled == Some(c) && w.finished == Some(outcome) && w.registered.None?
    ensures Obeys(w, Certified(a, c, outcome))
  {
    var second := Then(Ask(Register(outcome, a.register.Ok?), a.register), Give(Ok(outcome)));
    AskThen(w, VerifyCleaned(c, outcome, a.cleaned.Ok?), a.cleaned, second);
    if a.cleaned.Ok? {
      var w1 := Step(w, VerifyCleaned(c, outcome, true)).value;
      AskThen(w1, Register(outcome, a.register.Ok?), a.register, Give(Ok(outcome)));
    }
  }

  /** Bytes asked for and checked, then the rest. */
  lemma HydratedObeys<R, O, C>(w: Watch<R, O, C>, a: Answers<R, O, C>, rest: Run<O, R, O, C>)
    requires Inside(w) && w.effect == Some(Stage) && w.seen.Some? && (w.seen.value.Unseen? || w.seen.value.Durable?)
    requires Obeys(w.(checkedBody := true), rest)
    ensures Obeys(w, Then(Hydrated(a), rest))
  {
    var size: Result<()> := if a.body.Ok? && |a.body.value| > MAX_BODY then Err(NotAvailable) else Ok(());
    var check: Run<(), R, O, C> := Ask(VerifyBody(a.verifyBody.Ok?), a.verifyBody);
    var sized := Then(Give(size), check);
    AskThen(w, Body(a.body), a.body, sized);
    assert [] + check.trace == check.trace;
    assert Follow(w, check.trace) == Some(w.(checkedBody := a.verifyBody.Ok?)) by {
      assert check.trace[1..] == [];
      assert Follow(w.(checkedBody := a.verifyBody.Ok?), []) == Some(w.(checkedBody := a.verifyBody.Ok?));
    }
    FollowConcat(w, Hydrated(a).trace, rest.trace);
  }

  lemma HydratedAlike<R, O, C>(a: Answers<R, O, C>, b: Answers<R, O, C>)
    requires a.body == b.body && a.verifyBody == b.verifyBody
    ensures Hydrated(a) == Hydrated(b)
  {
  }

  lemma WriteObeys<R, O, C>(w: Watch<R, O, C>, a: Answers<R, O, C>)
    requires w == Closed().(startup := true, effect := Some(Stage))
    ensures Obeys(w, WriteAction(a))
  {
    var w1 := Step(w, Observe(a.observe)).value;
    assert Follow(w1, []) == Some(w1);
    match a.observe
    case Ok(Durable(receipt, outcome)) =>
      var rest := Then(Hydrated(a), Confirmed(a, receipt, outcome));
      AskThen(w, Observe(a.observe), a.observe, rest);
      ConfirmedObeys(w1.(checkedBody := true), a, receipt, outcome);
      HydratedObeys(w1, a, Confirmed(a, receipt, outcome));
    case Ok(Unseen) =>
      var last := match a.stage
        case Ok(Committed(receipt, outcome)) => Confirmed(a, receipt, outcome)
        case _ => Give(Err(Refusal.Pending));
      var rest := Then(Ask(StageBytes(a.stage), a.stage), last);
      AskThen(w, Observe(a.observe), a.observe, Then(Hydrated(a), rest));
      var w2 := w1.(checkedBody := true);
      var w3 := Step(w2, StageBytes(a.stage)).value;
      AskThen(w2, StageBytes(a.stage), a.stage, last);
      assert Follow(w3, []) == Some(w3);
      if a.stage.Ok? && a.stage.value.Committed? {
        ConfirmedObeys(w3, a, a.stage.value.receipt, a.stage.value.outcome);
      }
      HydratedObeys(w1, a, rest);
    case _ =>
      AskThen(w, Observe(a.observe), a.observe, Give<O, R, O, C>(WriteAction(a).result));
  }

  lemma ErasingObeys<R, O, C>(w: Watch<R, O, C>, a: Answers<R, O, C>, c: C)
    requires Inside(w) && w.cancelled == Some(c) && w.registered.None? && w.seen.Some?
    requires w.seen.value.Unseen? || w.seen.value.Durable? || w.seen.value.CleanupPending?
    ensures Obeys(w, Erasing(a, c))
  {
    var last := match a.finish
      case Ok(Some(outcome)) => Certified(a, c, outcome)
      case _ => Give(Err(Refusal.Pending));
    var erase := Then(Ask(FinishCleanup(c, a.finish), a.finish), last);
    AskThen(w, Tombstone(c, a.tombstone.Ok?), a.tombstone, erase);
    if a.tombstone.Ok? {
      var w1 := Step(w, Tombstone(c, true)).value;
      var w2 := Step(w1, FinishCleanup(c, a.finish)).value;
      AskThen(w1, FinishCleanup(c, a.finish), a.finish, last);
      assert Follow(w2, []) == Some(w2);
      if a.finish.Ok? && a.finish.value.Some? {
        CertifiedObeys(w2, a, c, a.finish.value.value);
      }
    }
  }

  lemma CleanupObeys<R, O, C>(w: Watch<R, O, C>, a: Answers<R, O, C>)
    requires w == Closed().(startup := true, effect := Some(CleanupCancelled))
    ensures Obeys(w, CleanupAction(a))
  {
    var w1 := Step(w, Cancelled(a.cancelled)).value;
    if a.cancelled.Err? {
      AskThen(w, Cancelled(a.cancelled), a.cancelled, Give<O, R, O, C>(Err(a.cancelled.refusal)));
    } else {
      var c := a.cancelled.value;
      var chosen := match a.observe
        case Ok(Unknown) => Give(Err(Refusal.Pending))
        case Ok(Prepared) => Give(Err(Refusal.Pending))
        case Ok(Corrupt) => Give(Err(Unavailable))
        case Ok(CancelledCleaned(outcome)) => Certified(a, c, outcome)
        case _ => Erasing(a, c);
      AskThen(w, Cancelled(a.cancelled), a.cancelled, Then(Ask(Observe(a.observe), a.observe), chosen));
      AskThen(w1, Observe(a.observe), a.observe, chosen);
      if a.observe.Ok? {
        hide Erasing, Certified;
        var w2 := Step(w1, Observe(a.observe)).value;
        assert Follow(w2, []) == Some(w2);
        if a.observe.value.CancelledCleaned? {
          CertifiedObeys(w2, a, c, a.observe.value.outcome);
        } else if a.observe.value.Unseen? || a.observe.value.Durable? || a.observe.value.CleanupPending? {
          ErasingObeys(w2, a, c);
        }
      }
    }
  }

  lemma FencedFollows<T, R, O, C>(a: Answers<R, O, C>, op: Operation, action: Run<T, R, O, C>)
    requires var end := Follow(Closed().(startup := true, effect := Some(op)), action.trace);
             end.Some? && end.value.startup && end.value.effect == Some(op)
    ensures var run, end := Authorized(a, op, action), Follow(Closed().(startup := true, effect := Some(op)), action.trace).value;
            && Follow(Closed(), run.trace) ==
                 (if a.startup.Refuse? then Some(Closed())
                  else if a.effect.Refuse? then Some(Closed())
                  else Some(end.(startup := false, effect := None)))
            && (run.result.Ok? <==> a.startup.Admit? && a.effect.Admit? && action.result.Ok?)
            && (run.result.Ok? ==> run.result == action.result)
  {
    var w0: Watch<R, O, C> := Closed();
    var w1 := w0.(startup := true);
    var w2 := w1.(effect := Some(op));
    var inner := Fenced(a.effect, EnterEffect(op), LeaveEffect, action);
    var end := Follow(w2, action.trace).value;
    var end1 := end.(effect := None);
    assert Follow(w1, []) == Some(w1) && Follow(end1, []) == Some(end1);
    assert Follow(w0, []) == Some(w0);
    assert Follow(end1.(startup := false), []) == Some(end1.(startup := false));
    var enter: seq<Port<R, O, C>>, leave := [EnterEffect(op)], [LeaveEffect];
    assert enter[1..] == [] && leave[1..] == [];
    assert Follow(w2, []) == Some(w2);
    assert Follow(w1, enter) == Some(w2);
    assert Follow(end, leave) == Some(end1);
    FollowConcat(w1, enter, action.trace);
    FollowConcat(w1, enter + action.trace, leave);
    var enter0: seq<Port<R, O, C>>, leave0: seq<Port<R, O, C>> := [EnterStartup], [LeaveStartup];
    assert enter0[1..] == [] && leave0[1..] == [];
    assert Follow(w0, enter0) == Some(w1);
    FollowConcat(w0, enter0, inner.trace);
    FollowConcat(w0, enter0 + inner.trace, leave0);
  }

  /** Whatever the ports answer, a write keeps every rule of the monitor, closes both fences,
      and succeeds only with an outcome it registered. */
  lemma WriteIsDisciplined<R, O, C>(a: Answers<R, O, C>)
    ensures var run := WriteOrReconcile(a);
            var end := Follow(Closed(), run.trace);
            && end.Some? && !end.value.startup && end.value.effect.None?
            && (run.result.Ok? ==> end.value.registered == Some(run.result.value))
  {
    WriteObeys(Closed().(startup := true, effect := Some(Stage)), a);
    FencedFollows(a, Stage, WriteAction(a));
  }

  /** The same for a clean-up: authenticated first, tombstoned before erased. */
  lemma CleanupIsDisciplined<R, O, C>(a: Answers<R, O, C>)
    ensures var run := Cleanup(a);
            var end := Follow(Closed(), run.trace);
            && end.Some? && !end.value.startup && end.value.effect.None?
            && (run.result.Ok? ==> end.value.registered == Some(run.result.value))
  {
    CleanupObeys(Closed().(startup := true, effect := Some(CleanupCancelled)), a);
    FencedFollows(a, CleanupCancelled, CleanupAction(a));
  }

  /** A verification only observes, checks and reads back: it stages, erases and registers
      nothing, and succeeds only with an outcome it read back. */
  lemma VerifyIsDisciplined<R, O, C>(a: Answers<R, O, C>)
    ensures var run := VerifyExactReadback(a);
            var end := Follow(Closed(), run.trace);
            && end.Some? && !end.value.startup && end.value.effect.None?
            && !end.value.staged && end.value.tombstoned.None? && end.value.registered.None?
            && (run.result.Ok? ==> end.value.confirmed == Some(run.result.value))
  {
    var w := Closed<R, O, C>().(startup := true, effect := Some(Verify));
    var w1 := Step(w, Observe(a.observe)).value;
    assert Follow(w1, []) == Some(w1);
    match a.observe {
      case Ok(Durable(receipt, outcome)) =>
        var read := Then(Ask(Readback(receipt, a.readback.Ok?), a.readback), Give(Ok(outcome)));
        AskThen(w, Observe(a.observe), a.observe, Then(Ask(VerifyDurable(receipt, outcome, a.durable.Ok?), a.durable), read));
        AskThen(w1, VerifyDurable(receipt, outcome, a.durable.Ok?), a.durable, read);
        if a.durable.Ok? {
          var w2 := Step(w1, VerifyDurable(receipt, outcome, true)).value;
          AskThen(w2, Readback(receipt, a.readback.Ok?), a.readback, Give(Ok(outcome)));
        }
      case _ =>
        AskThen(w, Observe(a.observe), a.observe, Give<O, R, O, C>(VerifyAction(a).result));
    }
    FencedFollows(a, Verify, VerifyAction(a));
  }

  /** A status call is one observation, behind the same two fences. */
  lemma StatusIsDisciplined<R, O, C>(a: Answers<R, O, C>)
    ensures var run := StatusOf(a);
            var end := Follow(Closed(), run.trace);
            && end.Some? && !end.value.startup && end.value.effect.None?
            && !end.value.staged && end.value.tombstoned.None? && end.value.registered.None?
            && (run.result.Ok? ==> end.value.seen == Some(run.result.value))
  {
    var w := Closed<R, O, C>().(startup := true, effect := Some(Status));
    var w1 := Step(w, Observe(a.observe)).value;
    var action: Run<Seen<R, O>, R, O, C> := Ask(Observe(a.observe), a.observe);
    assert action.trace[1..] == [];
    assert Follow(w1, []) == Some(w1);
    FencedFollows(a, Status, action);
  }

  // ---------------------------------------------------------------- which answers make a success

  /** A write succeeds exactly when every port it needs says yes: a durable part is confirmed, a
      fresh one is staged once and then confirmed; and it refuses as the observation demands. */
  lemma WriteSucceedsExactly<R, O, C>(a: Answers<R, O, C>, o: O)
    ensures WriteOrReconcile(a).result == Ok(o) <==>
              && a.startup.Admit? && a.effect.Admit? && a.body.Ok? && |a.body.value| <= 1_048_576 && a.verifyBody.Ok?
              && a.durable.Ok? && a.readback.Ok? && a.register.Ok?
              && exists receipt ::
                   || a.observe == Ok(Durable(receipt, o))
                   || (a.observe == Ok(Unseen) && a.stage == Ok(Committed(receipt, o)))
    ensures a.startup.Admit? && a.effect.Admit? ==>
              && (a.observe.Err? ==> WriteOrReconcile(a).result == Err(a.observe.refusal))
              && (a.observe == Ok(Prepared) || a.observe == Ok(Unknown) ==> WriteOrReconcile(a).result == Err(Refusal.Pending))
              && (a.observe == Ok(Corrupt) ==> WriteOrReconcile(a).result == Err(Unavailable))
              && (a.observe == Ok(CleanupPending) ==> WriteOrReconcile(a).result == Err(Conflict))
              && (a.observe.Ok? && a.observe.value.CancelledCleaned? ==> WriteOrReconcile(a).result == Err(Conflict))
  {
    if a.observe.Ok? && a.observe.value.Durable? {
      assert a.observe == Ok(Durable(a.observe.value.receipt, a.observe.value.outcome));
    }
    if a.stage.Ok? && a.stage.value.Committed? {
      assert a.stage == Ok(Committed(a.stage.value.receipt, a.stage.value.outcome));
    }
  }

  /** A clean-up succeeds exactly when the cancellation is known, the capture is already cleaned or
      its tombstone and its erasing succeed, and the outcome is certified and registered. */
  lemma CleanupSucceedsExactly<R, O, C>(a: Answers<R, O, C>, o: O)
    ensures Cleanup(a).result == Ok(o) <==>
              && a.startup.Admit? && a.effect.Admit? && a.cancelled.Ok? && a.observe.Ok? && a.cleaned.Ok? && a.register.Ok?
              && (|| a.observe == Ok(CancelledCleaned(o))
                  || (&& (a.observe.value.Unseen? || a.observe.value.Durable? || a.observe.value.CleanupPending?)
                      && a.tombstone.Ok? && a.finish == Ok(Some(o))))
    ensures a.startup.Admit? && a.effect.Admit? && a.cancelled.Ok? ==>
              && (a.observe.Err? ==> Cleanup(a).result == Err(a.observe.refusal))
              && (a.observe == Ok(Prepared) || a.observe == Ok(Unknown) ==> Cleanup(a).result == Err(Refusal.Pending))
              && (a.observe == Ok(Corrupt) ==> Cleanup(a).result == Err(Unavailable))
    ensures a.startup.Admit? && a.effect.Admit? && a.cancelled.Err? ==> Cleanup(a).result == Err(a.cancelled.refusal)
  {
  }

  /** A verification succeeds exactly for a durable part that is known and read back. */
  lemma VerifySucceedsExactly<R, O, C>(a: Answers<R, O, C>, o: O)
    ensures VerifyExactReadback(a).result == Ok(o) <==>
              && a.startup.Admit? && a.effect.Admit? && a.durable.Ok? && a.readback.Ok?
              && a.observe.Ok? && a.observe.value.Durable? && a.observe.value.outcome == o
    ensures a.startup.Admit? && a.effect.Admit? ==>
              && (a.observe == Ok(Unseen) || a.observe == Ok(CleanupPending) ==> VerifyExactReadback(a).result == Err(NotAvailable))
              && (a.observe == Ok(Prepared) || a.observe == Ok(Unknown) ==> VerifyExactReadback(a).result == Err(Refusal.Pending))
              && (a.observe == Ok(Corrupt) ==> VerifyExactReadback(a).result == Err(Unavailable))
  {
  }
}
