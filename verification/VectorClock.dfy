/**
 Vector clocks (`vector_clock.rs`).  Counters saturate at the 64-bit limit.  Runs of nodes
 that advance their own entry and merge clocks they received carry, beside each clock, the
 set of advances it causally depends on; `compare` is measured against those sets.
 */
module VectorClock {

  const COUNTER_MAX: nat := 0xFFFF_FFFF_FFFF_FFFF
  type Counter = n: nat | n <= COUNTER_MAX
  type Clock = map<string, Counter>

  datatype Causality = Equal | Before | After | Concurrent

  function Get(c: Clock, node: string): Counter {
    if node in c then c[node] else 0
  }

  function Advanced(c: Clock, node: string): Clock {
    c[node := if Get(c, node) == COUNTER_MAX then COUNTER_MAX else Get(c, node) + 1]
  }

  function Max(a: Counter, b: Counter): Counter {
    if b > a then b else a
  }

  function Merged(a: Clock, b: Clock): Clock {
    map k | k in a.Keys + b.Keys :: Max(Get(a, k), Get(b, k))
  }

  ghost predicate Le(a: Clock, b: Clock) {
    forall k :: Get(a, k) <= Get(b, k)
  }

  /** The order two values stand in, given both halves of a partial order. */
  function Relation(le: bool, ge: bool): Causality {
    if le && ge then Equal else if le then Before else if ge then After else Concurrent
  }

  ghost function Compared(a: Clock, b: Clock): Causality {
    Relation(Le(a, b), Le(b, a))
  }

  /** The four answers by what they mean. */
  lemma ComparedMeans(a: Clock, b: Clock)
    ensures Compared(a, b) == Equal <==> forall k :: Get(a, k) == Get(b, k)
    ensures Compared(a, b) == Before <==> Le(a, b) && exists k :: Get(a, k) < Get(b, k)
    ensures Compared(a, b) == After <==> Le(b, a) && exists k :: Get(b, k) < Get(a, k)
    ensures Compared(a, b) == Concurrent <==> (exists k :: Get(a, k) < Get(b, k)) && (exists k :: Get(b, k) < Get(a, k))
    ensures Compared(map["n" := 1], map["n" := 2]) == Before
  {
    var one: Clock, two: Clock := map["n" := 1], map["n" := 2];
    assert Get(one, "n") < Get(two, "n");
  }

  /** `merge` is the least upper bound. */
  lemma MergeIsLeastUpperBound(a: Clock, b: Clock, c: Clock)
    ensures Le(Merged(a, b), c) <==> Le(a, c) && Le(b, c)
    ensures Le(a, Merged(a, b)) && Le(b, Merged(a, b))
    ensures Merged(a, a) == a
  {
    assert forall k :: Get(Merged(a, b), k) == Max(Get(a, k), Get(b, k));
    if Le(Merged(a, b), c) {
      forall k ensures Get(a, k) <= Get(c, k) && Get(b, k) <= Get(c, k) {
        assert Get(Merged(a, b), k) <= Get(c, k);
      }
    }
  }

  class Vector {
    var entries: Clock

    constructor ()
      ensures entries == map[]
    {
      entries := map[];
    }

    method Advance(node: string)
      modifies this
      ensures entries == Advanced(old(entries), node)
    {
      if node !in entries {
        entries := entries[node := 0];
      }
      if entries[node] < COUNTER_MAX {
        entries := entries[node := entries[node] + 1];
      }
    }

    method Merge(other: Vector)
      modifies this
      ensures entries == Merged(old(entries), old(other.entries))
    {
      var theirs := other.entries;
      var left := theirs.Keys;
      while left != {}
        invariant left <= theirs.Keys
        invariant entries.Keys == old(entries).Keys + (theirs.Keys - left)
        invariant forall k :: k in entries ==>
                    entries[k] == if k in left then Get(old(entries), k) else Max(Get(old(entries), k), Get(theirs, k))
        decreases left
      {
        var k :| k in left;
        var slot := Get(entries, k);
        entries := entries[k := if theirs[k] > slot then theirs[k] else slot];
        left := left - {k};
      }
    }

    method Compare(other: Vector) returns (out: Causality)
      ensures out == Compared(entries, other.entries)
      ensures out == Equal <==> forall k :: Get(entries, k) == Get(other.entries, k)
      ensures out == Before <==> Le(entries, other.entries) && !Le(other.entries, entries)
      ensures out == After <==> Le(other.entries, entries) && !Le(entries, other.entries)
      ensures out == Concurrent <==> !Le(entries, other.entries) && !Le(other.entries, entries)
    {
      var keys := entries.Keys + other.entries.Keys;
      var less, more := false, false;
      var left := keys;
      while left != {}
        invariant left <= keys
        invariant !less <==> forall k :: k in keys - left ==> Get(entries, k) >= Get(other.entries, k)
        invariant !more <==> forall k :: k in keys - left ==> Get(entries, k) <= Get(other.entries, k)
        decreases left
      {
        var k :| k in left;
        var a, b := Get(entries, k), Get(other.entries, k);
        if a < b {
          less := true;
        } else if a > b {
          more := true;
        }
        assert keys - (left - {k}) == keys - left + {k};
        left := left - {k};
      }
      assert !less <==> Le(other.entries, entries) by { OverKeys(other.entries, entries, keys); }
      assert !more <==> Le(entries, other.entries) by { OverKeys(entries, other.entries, keys); }
      return if !less && !more then Equal else if less && !more then Before else if more && !less then After else Concurrent;
    }

    method HappensBefore(other: Vector) returns (before: bool)
      ensures before <==> Le(entries, other.entries) && exists k :: Get(entries, k) < Get(other.entries, k)
    {
      ComparedMeans(entries, other.entries);
      var out := Compare(other);
      return out == Before;
    }
  }

  lemma OverKeys(a: Clock, b: Clock, keys: set<string>)
    requires keys == a.Keys + b.Keys
    ensures Le(a, b) <==> forall k :: k in keys ==> Get(a, k) <= Get(b, k)
  {
  }

  // ---------------------------------------------------------------- runs

  /** The `ordinal`-th advance of a node. */
  datatype Edit = Edit(node: string, ordinal: nat)

  /** A clock at one moment, with the advances it depends on. */
  datatype Snap = Snap(clock: Clock, history: set<Edit>)

  datatype Op = Tick(node: string) | Receive(node: string, from: nat)

  /** Each node's current clock, how often it advanced, and every clock there ever was. */
  datatype System = System(now: map<string, Snap>, ticks: map<string, nat>, trail: seq<Snap>)

  const FRESH := Snap(map[], {})
  const START := System(map[], map[], [FRESH])

  function Now(s: System, node: string): Snap {
    if node in s.now then s.now[node] else FRESH
  }

  function Ticks(s: System, node: string): nat {
    if node in s.ticks then s.ticks[node] else 0
  }

  function Put(s: System, node: string, snap: Snap): System {
    s.(now := s.now[node := snap], trail := s.trail + [snap])
  }

  function Step(s: System, op: Op): System {
    var mine := Now(s, op.node);
    match op
    case Tick(n) =>
      var t := Ticks(s, n) + 1;
      Put(s, n, Snap(Advanced(mine.clock, n), mine.history + {Edit(n, t)})).(ticks := s.ticks[n := t])
    case Receive(n, from) =>
      if from >= |s.trail| then s
      else
        var got := s.trail[from];
        Put(s, n, Snap(Merged(mine.clock, got.clock), mine.history + got.history))
  }

  function Run(ops: seq<Op>): System {
    if ops == [] then START else Step(Run(ops[..|ops| - 1]), ops[|ops| - 1])
  }

  /** No advance happens on a counter at the limit. */
  predicate Unsaturated(ops: seq<Op>) {
    ops != [] ==>
      && Unsaturated(ops[..|ops| - 1])
      && !Saturates(Run(ops[..|ops| - 1]), ops[|ops| - 1])
  }

  predicate Saturates(s: System, op: Op) {
    op.Tick? && Get(Now(s, op.node).clock, op.node) == COUNTER_MAX
  }

  /** The clocks compare as the histories do: `Before` is a proper part of what the other
      depends on, `After` the converse. */
  ghost predicate Faithful(a: Snap, b: Snap) {
    match Compared(a.clock, b.clock)
    case Equal => a.history == b.history
    case Before => a.history < b.history
    case After => b.history < a.history
    case Concurrent => !(a.history <= b.history) && !(b.history <= a.history)
  }

  // ---------------------------------------------------------------- clocks count histories

  /** A clock entry says how far the node's advances are known, up to the limit. */
  ghost predicate Tells(snap: Snap) {
    && (forall n, v: nat :: 1 <= v <= COUNTER_MAX ==> (Edit(n, v) in snap.history <==> v <= Get(snap.clock, n)))
    && (forall e :: e in snap.history ==> e.ordinal >= 1)
  }

  ghost predicate Known(s: System, snap: Snap) {
    Tells(snap) && forall e :: e in snap.history ==> e.ordinal <= Ticks(s, e.node)
  }

  ghost predicate Owns(s: System, n: string) {
    && Now(s, n) in s.trail
    && forall v: nat :: 1 <= v ==> (Edit(n, v) in Now(s, n).history <==> v <= Ticks(s, n))
  }

  /** A node knows all of its own advances, and nobody knows more. */
  ghost predicate Accounts(s: System) {
    (forall snap :: snap in s.trail ==> Known(s, snap)) && (forall n :: Owns(s, n))
  }

  lemma TickTells(snap: Snap, n: string, t: nat)
    requires Tells(snap) && forall v: nat :: 1 <= v ==> (Edit(n, v) in snap.history <==> v <= t)
    ensures Tells(Snap(Advanced(snap.clock, n), snap.history + {Edit(n, t + 1)}))
    ensures Get(snap.clock, n) == COUNTER_MAX <==> t >= COUNTER_MAX
  {
    var g: nat := Get(snap.clock, n);
    if g >= 1 {
      assert Edit(n, g) in snap.history;
    }
    if 1 <= t <= COUNTER_MAX {
      assert Edit(n, t) in snap.history;
    }
    if t > COUNTER_MAX {
      assert Edit(n, COUNTER_MAX) in snap.history;
    }
  }

  lemma MergeTells(a: Snap, b: Snap)
    requires Tells(a) && Tells(b)
    ensures Tells(Snap(Merged(a.clock, b.clock), a.history + b.history))
  {
    assert forall k :: Get(Merged(a.clock, b.clock), k) == Max(Get(a.clock, k), Get(b.clock, k));
  }

  lemma PutAccounts(s: System, s': System, n: string, snap: Snap)
    requires Accounts(s) && s'.now == s.now[n := snap] && s'.trail == s.trail + [snap]
    requires forall m :: Ticks(s', m) >= Ticks(s, m) && (m != n ==> Ticks(s', m) == Ticks(s, m))
    requires Known(s', snap) && forall v: nat :: 1 <= v ==> (Edit(n, v) in snap.history <==> v <= Ticks(s', n))
    ensures Accounts(s')
  {
    hide Tells, Ticks;
    forall m ensures Owns(s', m) {
      assert Owns(s, m);
      assert m != n ==> Now(s', m) == Now(s, m);
    }
    forall other | other in s'.trail ensures Known(s', other) {
      if other != snap {
        assert Known(s, other);
      }
    }
  }

  lemma StepAccounts(s: System, op: Op)
    requires Accounts(s)
    ensures Accounts(Step(s, op))
  {
    var n, mine, s' := op.node, Now(s, op.node), Step(s, op);
    assert Owns(s, n) && Known(s, mine);
    if op.Tick? {
      TickTells(mine, n, Ticks(s, n));
      hide Tells, Advanced, Accounts;
      PutAccounts(s, s', n, Now(s', n));
    } else if op.from < |s.trail| {
      assert Known(s, s.trail[op.from]);
      MergeTells(mine, s.trail[op.from]);
      hide Tells, Merged, Accounts;
      PutAccounts(s, s', n, Now(s', n));
    }
  }

  lemma {:induction false} RunAccounts(ops: seq<Op>)
    ensures Accounts(Run(ops))
  {
    if ops != [] {
      RunAccounts(ops[..|ops| - 1]);
      StepAccounts(Run(ops[..|ops| - 1]), ops[|ops| - 1]);
    }
  }

  lemma {:induction false} UnsaturatedBounds(ops: seq<Op>, n: string)
    requires Unsaturated(ops)
    ensures Ticks(Run(ops), n) <= COUNTER_MAX
  {
    if ops != [] {
      var s, op := Run(ops[..|ops| - 1]), ops[|ops| - 1];
      UnsaturatedBounds(ops[..|ops| - 1], n);
      RunAccounts(ops[..|ops| - 1]);
      if op.Tick? {
        assert Owns(s, op.node) && Known(s, Now(s, op.node));
        TickTells(Now(s, op.node), op.node, Ticks(s, op.node));
      }
    }
  }

  lemma SubsetIsLe(a: Snap, b: Snap)
    requires Tells(a) && Tells(b)
    requires forall e :: e in a.history ==> e.ordinal <= COUNTER_MAX
    ensures a.history <= b.history <==> Le(a.clock, b.clock)
  {
    if a.history <= b.history {
      forall n ensures Get(a.clock, n) <= Get(b.clock, n) {
        var v: nat := Get(a.clock, n);
        if v >= 1 {
          assert Edit(n, v) in a.history;
        }
      }
    }
    if Le(a.clock, b.clock) {
      forall e | e in a.history ensures e in b.history {
        assert e == Edit(e.node, e.ordinal);
        assert Get(a.clock, e.node) <= Get(b.clock, e.node);
      }
    }
  }

  /** A saturated advance is invisible to `compare`, although the history grew. */
  lemma SaturationHides(s: System, op: Op)
    requires Accounts(s) && Saturates(s, op)
    ensures var before, after := Now(s, op.node), Now(Step(s, op), op.node);
            before in Step(s, op).trail && after in Step(s, op).trail && !Faithful(before, after)
  {
    var n := op.node;
    var before, after := Now(s, n), Now(Step(s, op), n);
    assert Owns(s, n);
    var latest := Edit(n, Ticks(s, n) + 1);
    assert forall k :: Get(after.clock, k) == Get(before.clock, k);
    assert latest in after.history && latest !in before.history;
    assert Step(s, op).trail == s.trail + [after];
  }

  ghost predicate AllFaithful(trail: seq<Snap>) {
    forall a, b :: a in trail && b in trail ==> Faithful(a, b)
  }

  lemma FaithfulBelowTheLimit(ops: seq<Op>)
    requires Unsaturated(ops)
    ensures AllFaithful(Run(ops).trail)
  {
    var s := Run(ops);
    RunAccounts(ops);
    forall a, b | a in s.trail && b in s.trail ensures Faithful(a, b) {
      forall e | e in a.history || e in b.history ensures e.ordinal <= COUNTER_MAX {
        UnsaturatedBounds(ops, e.node);
      }
      SubsetIsLe(a, b);
      SubsetIsLe(b, a);
    }
  }

  /** The strong clock condition, exactly: all clocks of a run compare as their causal
      histories do if and only if no advance ever happened on a counter at the limit. */
  lemma {:induction false} StrongClockCondition(ops: seq<Op>)
    ensures AllFaithful(Run(ops).trail) <==> Unsaturated(ops)
  {
    if Unsaturated(ops) {
      FaithfulBelowTheLimit(ops);
    } else {
      var front, op := ops[..|ops| - 1], ops[|ops| - 1];
      StrongClockCondition(front);
      RunAccounts(front);
      if Unsaturated(front) {
        SaturationHides(Run(front), op);
      } else {
        hide Faithful;
        assert forall a :: a in Run(front).trail ==> a in Run(ops).trail;
      }
    }
  }

  lemma {:induction false} TicksAlone(k: nat)
    ensures Ticks(Run(seq(k, _ => Tick("n"))), "n") == k
  {
    if k > 0 {
      TicksAlone(k - 1);
      assert seq(k, _ => Tick("n"))[..k - 1] == seq(k - 1, _ => Tick("n"));
    }
  }

  /** The limit matters: one node advancing past it makes two clocks that compare equal. */
  lemma LimitBreaksTheClock()
    ensures !AllFaithful(Run(seq(COUNTER_MAX + 1, _ => Tick("n"))).trail)
  {
    var ops := seq(COUNTER_MAX + 1, _ => Tick("n"));
    TicksAlone(COUNTER_MAX + 1);
    if Unsaturated(ops) {
      UnsaturatedBounds(ops, "n");
    }
    StrongClockCondition(ops);
  }
}
