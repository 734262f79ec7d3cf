/** Whole runs over one paid order: callbacks, sweeps and operators claim, deliver and record
    in any interleaving. */
module PlatformRuns {
  import opened Clock
  import opened Text
  import opened PlatformOrder

  /** An attempt that was claimed and has not recorded its outcome. */
  datatype Flight = Flight(claimedAt: int, deadline: int, answer: Option<Answer>)

  /** The stored order, the clock, the attempts in flight, and two counts of history: how often
      the deliverer was called and how often it granted. */
  datatype World = World(order: Option<Order>, now: int, flights: map<nat, Flight>, calls: nat, grants: nat)

  datatype Action =
    | Create(first: Order)
    | Tick(to: int)
    | StartAttempt(attempt: nat, read: int)
    | Deliver(attempt: nat, answer: Answer)
    | Record(attempt: nat)
    | Crash(attempt: nat)
    | ReopenIt(note: string, read: int)
    | SettleIt(note: string, read: int)

  predicate Operator(a: Action) { a.ReopenIt? || a.SettleIt? }

  /** What may happen: a new order is as the first callback records it, the clock does not go
      back, attempts have names of their own and read the clock before they update. */
  predicate Legal(w: World, a: Action)
  {
    match a
    case Create(o) =>
      o.state == Reserved && o.attempts == 0 && o.nextAttemptAt == 0 && o.reopens == 0 && o.maxAttempts > 0
    case Tick(to) => w.now <= to
    case StartAttempt(c, read) => c !in w.flights && read <= w.now
    case _ => true
  }

  function Step(w: World, a: Action, backoff: int): World
  {
    match a
    case Create(o) => if w.order.Some? then w else w.(order := Some(o))
    case Tick(to) => w.(now := to)
    case StartAttempt(c, read) =>
      if w.order.None? then w
      else
        var (after, outcome) := Claim(w.order.value, read, backoff);
        if outcome.Claimed? then
          w.(order := Some(after), calls := w.calls + 1,
             flights := w.flights[c := Flight(Unix(read), after.nextAttemptAt, None)])
        else w.(order := Some(after))
    case Deliver(c, answer) =>
      if c !in w.flights || w.flights[c].answer.Some? then w
      else w.(flights := w.flights[c := w.flights[c].(answer := Some(answer))],
              grants := w.grants + if answer.Granted? then 1 else 0)
    case Record(c) =>
      if w.order.None? || c !in w.flights || w.flights[c].answer.None? then w
      else
        var f := w.flights[c];
        w.(flights := w.flights - {c},
           order := Some(match f.answer.value
             case Granted => Succeed(w.order.value, f.claimedAt)
             case Refused(cause) => Fail(w.order.value, cause, f.claimedAt)))
    case Crash(c) => w.(flights := w.flights - {c})
    case ReopenIt(note, read) =>
      if w.order.None? || w.order.value.state != Exhausted then w
      else w.(order := Some(Reopen(w.order.value, note, Unix(read))))
    case SettleIt(note, read) =>
      if w.order.None? || w.order.value.state != Exhausted then w
      else w.(order := Some(Settle(w.order.value, note, Unix(read))))
  }

  function Run(w: World, actions: seq<Action>, backoff: int): World
    decreases |actions|
  {
    if actions == [] then w else Run(Step(w, actions[0], backoff), actions[1..], backoff)
  }

  predicate LegalRun(w: World, actions: seq<Action>, backoff: int)
    decreases |actions|
  {
    actions == [] || (Legal(w, actions[0]) && LegalRun(Step(w, actions[0], backoff), actions[1..], backoff))
  }

  function Start(now: int): World { World(None, now, map[], 0, 0) }

  // ---------- without any timing hypothesis ----------

  ghost predicate BudgetInv(w: World)
  {
    match w.order
    case None => w.calls == 0 && w.flights == map[]
    case Some(o) =>
      && 0 <= o.attempts <= o.maxAttempts && 0 < o.maxAttempts && 0 <= o.reopens
      && w.calls <= o.maxAttempts * o.reopens + o.attempts
      && (o.state == Exhausted || o.state == Settled ==> o.attempts == o.maxAttempts)
  }

  lemma StepKeepsBudget(w: World, a: Action, backoff: int)
    requires BudgetInv(w) && Legal(w, a)
    ensures BudgetInv(Step(w, a, backoff))
    ensures w.order.Some? ==>
      var after := Step(w, a, backoff).order;
      after.Some? && after.value.maxAttempts == w.order.value.maxAttempts
  {
    if a.ReopenIt? && w.order.Some? {
      var o := w.order.value;
      assert o.maxAttempts * (o.reopens + 1) == o.maxAttempts * o.reopens + o.maxAttempts;
    }
  }

  lemma {:induction false} RunKeepsBudget(w: World, actions: seq<Action>, backoff: int)
    requires BudgetInv(w) && LegalRun(w, actions, backoff)
    ensures BudgetInv(Run(w, actions, backoff))
    decreases |actions|
  {
    hide BudgetInv, Step, Legal;
    if actions != [] {
      StepKeepsBudget(w, actions[0], backoff);
      RunKeepsBudget(Step(w, actions[0], backoff), actions[1..], backoff);
    }
  }

  /** In every interleaving the deliverer is called at most MaxAttempts times for the first
      budget and for each reopening, crashes and late outcomes included. */
  lemma CallsAreBudgeted(actions: seq<Action>, now: int, backoff: int)
    requires LegalRun(Start(now), actions, backoff)
    ensures var w := Run(Start(now), actions, backoff);
      && (w.order.None? ==> w.calls == 0)
      && (w.order.Some? ==> w.calls <= w.order.value.maxAttempts * (w.order.value.reopens + 1))
  {
    RunKeepsBudget(Start(now), actions, backoff);
    var w := Run(Start(now), actions, backoff);
    if w.order.Some? {
      var o := w.order.value;
      assert o.maxAttempts * (o.reopens + 1) == o.maxAttempts * o.reopens + o.maxAttempts;
    }
  }

  /** Delivered is left by nothing: the whole record, its delivery time included, is frozen. */
  lemma {:induction false} DeliveredIsFrozen(w: World, actions: seq<Action>, backoff: int)
    requires w.order.Some? && w.order.value.state == Delivered
    ensures Run(w, actions, backoff).order == w.order
    decreases |actions|
  {
    if actions != [] { DeliveredIsFrozen(Step(w, actions[0], backoff), actions[1..], backoff); }
  }

  /** Attempts left before the order must be terminal. */
  function Measure(o: Option<Order>): int
  {
    if o.None? || o.value.Terminal() then 0 else o.value.maxAttempts - o.value.attempts + 1
  }

  /** An attempt that is not turned away on an order still to be delivered. */
  predicate Advances(w: World, a: Action, backoff: int)
  {
    && a.StartAttempt? && w.order.Some? && !w.order.value.Terminal()
    && !Claim(w.order.value, a.read, backoff).1.Held?
  }

  lemma AttemptsLowerMeasure(w: World, a: Action, backoff: int)
    requires BudgetInv(w) && Legal(w, a) && w.order.Some? && !Operator(a)
    ensures 0 <= Measure(Step(w, a, backoff).order) <= Measure(w.order)
    ensures Advances(w, a, backoff) ==> Measure(Step(w, a, backoff).order) < Measure(w.order)
  {
    StepKeepsBudget(w, a, backoff);
  }

  function AdvancesIn(w: World, actions: seq<Action>, backoff: int): nat
    decreases |actions|
  {
    if actions == [] then 0
    else (if Advances(w, actions[0], backoff) then 1 else 0)
         + AdvancesIn(Step(w, actions[0], backoff), actions[1..], backoff)
  }

  /** With no operator at work an order is settled one way or the other after at most
      MaxAttempts - Attempts + 1 attempts that were not held. */
  lemma {:induction false} OrdersRunOut(w: World, actions: seq<Action>, backoff: int)
    requires BudgetInv(w) && LegalRun(w, actions, backoff) && w.order.Some?
    requires forall a | a in actions :: !Operator(a)
    ensures AdvancesIn(w, actions, backoff) + Measure(Run(w, actions, backoff).order) <= Measure(w.order)
    ensures AdvancesIn(w, actions, backoff) == Measure(w.order) ==>
      var o := Run(w, actions, backoff).order; o.Some? && o.value.Terminal()
    decreases |actions|
  {
    RunKeepsOrder(w, actions, backoff);
    hide Step, Legal, Advances;
    if actions != [] {
      StepKeepsBudget(w, actions[0], backoff);
      AttemptsLowerMeasure(w, actions[0], backoff);
      OrdersRunOut(Step(w, actions[0], backoff), actions[1..], backoff);
    }
  }

  lemma {:induction false} RunKeepsOrder(w: World, actions: seq<Action>, backoff: int)
    requires BudgetInv(w) && LegalRun(w, actions, backoff) && w.order.Some?
    ensures Run(w, actions, backoff).order.Some? && BudgetInv(Run(w, actions, backoff))
    decreases |actions|
  {
    hide Step, Legal;
    if actions != [] {
      StepKeepsBudget(w, actions[0], backoff);
      RunKeepsOrder(Step(w, actions[0], backoff), actions[1..], backoff);
    }
  }

  // ---------- when every outcome is recorded in time ----------

  /** No attempt has outlived the deadline its claim set. */
  predicate OnTime(w: World)
  {
    0 <= w.now && forall c | c in w.flights :: Unix(w.now) < w.flights[c].deadline
  }

  /** A run in which no attempt dies and none is still in flight at its deadline. */
  predicate TimelyRun(w: World, actions: seq<Action>, backoff: int)
    decreases |actions|
  {
    && OnTime(w)
    && (actions == [] ||
        (Legal(w, actions[0]) && !actions[0].Crash? && TimelyRun(Step(w, actions[0], backoff), actions[1..], backoff)))
  }

  ghost predicate Granting(w: World) { exists c | c in w.flights :: w.flights[c].answer == Some(Granted) }

  ghost predicate TimelyInv(w: World)
  {
    && BudgetInv(w)
    && (forall c, d | c in w.flights && d in w.flights :: c == d)
    && (forall c | c in w.flights :: w.order.Some? && w.order.value.state == Reserved
         && w.order.value.nextAttemptAt == w.flights[c].deadline)
    && w.grants == if (w.order.Some? && w.order.value.state == Delivered) || Granting(w) then 1 else 0
  }

  /** While an attempt is in flight, and on time, every other attempt is held. */
  lemma OthersAreHeld(w: World, c: nat, read: int, backoff: int)
    requires TimelyInv(w) && OnTime(w) && c in w.flights && read <= w.now
    ensures Claim(w.order.value, read, backoff).1 == Held
  {
    UnixIsMonotone(read, w.now);
    UnixIsMonotone(0, w.now);
  }

  lemma StartKeepsTimely(w: World, a: Action, backoff: int)
    requires a.StartAttempt? && TimelyInv(w) && OnTime(w) && Legal(w, a)
    ensures TimelyInv(Step(w, a, backoff))
  {
    StepKeepsBudget(w, a, backoff);
    if c :| c in w.flights {
      OthersAreHeld(w, c, a.read, backoff);
      assert Step(w, a, backoff) == w;
    } else {
      var after := Step(w, a, backoff);
      assert w.flights == map[];
      assert forall d | d in after.flights :: d == a.attempt && after.flights[d].answer == None;
      assert !Granting(w) && !Granting(after);
    }
  }

  lemma DeliverKeepsTimely(w: World, a: Action, backoff: int)
    requires a.Deliver? && TimelyInv(w)
    ensures TimelyInv(Step(w, a, backoff))
  {
    StepKeepsBudget(w, a, backoff);
    var after := Step(w, a, backoff);
    if a.attempt in w.flights && w.flights[a.attempt].answer.None? {
      assert !Granting(w);
      assert Granting(after) <==> after.flights[a.attempt].answer == Some(Granted);
    }
  }

  lemma RecordKeepsTimely(w: World, a: Action, backoff: int)
    requires a.Record? && TimelyInv(w)
    ensures TimelyInv(Step(w, a, backoff))
  {
    StepKeepsBudget(w, a, backoff);
    var after := Step(w, a, backoff);
    if w.order.Some? && a.attempt in w.flights && w.flights[a.attempt].answer.Some? {
      assert after.flights == map[];
      assert Granting(w) <==> w.flights[a.attempt].answer == Some(Granted);
    }
  }

  lemma StepKeepsTimely(w: World, a: Action, backoff: int)
    requires TimelyInv(w) && OnTime(w) && Legal(w, a) && !a.Crash?
    ensures TimelyInv(Step(w, a, backoff))
    ensures w.order.Some? && (w.order.value.state == Delivered || w.order.value.state == Settled) ==>
      Step(w, a, backoff).order == w.order
  {
    match a {
      case StartAttempt(_, _) => StartKeepsTimely(w, a, backoff);
      case Deliver(_, _) => DeliverKeepsTimely(w, a, backoff);
      case Record(_) => RecordKeepsTimely(w, a, backoff);
      case Crash(_) =>
      case Create(_) => SameFlights(w, a, backoff);
      case Tick(_) => SameFlights(w, a, backoff);
      case ReopenIt(_, _) => SameFlights(w, a, backoff);
      case SettleIt(_, _) => SameFlights(w, a, backoff);
    }
  }

  lemma SameFlights(w: World, a: Action, backoff: int)
    requires TimelyInv(w) && Legal(w, a) && (a.Create? || a.Tick? || Operator(a))
    ensures TimelyInv(Step(w, a, backoff))
  {
    StepKeepsBudget(w, a, backoff);
    assert Granting(Step(w, a, backoff)) <==> Granting(w);
  }

  lemma {:induction false} RunKeepsTimely(w: World, actions: seq<Action>, backoff: int)
    requires TimelyInv(w) && TimelyRun(w, actions, backoff)
    ensures TimelyInv(Run(w, actions, backoff))
    ensures w.order.Some? && (w.order.value.state == Delivered || w.order.value.state == Settled) ==>
      Run(w, actions, backoff).order == w.order
    decreases |actions|
  {
    hide TimelyInv, Step, Legal, OnTime;
    if actions != [] {
      StepKeepsTimely(w, actions[0], backoff);
      RunKeepsTimely(Step(w, actions[0], backoff), actions[1..], backoff);
    }
  }

  /** One clock that never goes back, every outcome recorded before its deadline: at most one
      attempt is in flight at any time, and the goods are granted at most once over the whole
      run, whatever callbacks, sweeps and operators do. */
  lemma GrantedAtMostOnce(actions: seq<Action>, now: int, backoff: int)
    requires TimelyRun(Start(now), actions, backoff)
    ensures var w := Run(Start(now), actions, backoff);
      && |w.flights| <= 1
      && w.grants <= 1
      && (w.grants == 1 <==> (w.order.Some? && w.order.value.state == Delivered) || Granting(w))
  {
    assert !Granting(Start(now));
    RunKeepsTimely(Start(now), actions, backoff);
    AtMostOneFlight(Run(Start(now), actions, backoff));
  }

  lemma AtMostOneFlight(w: World)
    requires forall c, d | c in w.flights && d in w.flights :: c == d
    ensures |w.flights| <= 1
  {
    if c :| c in w.flights {
      assert w.flights.Keys == {c};
    } else {
      assert w.flights.Keys == {};
    }
  }

  /** In such a run delivered and settled are never left, from whatever point they are reached. */
  lemma TerminalOutcomesStay(before: seq<Action>, after: seq<Action>, now: int, backoff: int)
    requires TimelyRun(Start(now), before, backoff)
    requires TimelyRun(Run(Start(now), before, backoff), after, backoff)
    requires var o := Run(Start(now), before, backoff).order;
      o.Some? && (o.value.state == Delivered || o.value.state == Settled)
    ensures Run(Run(Start(now), before, backoff), after, backoff).order == Run(Start(now), before, backoff).order
  {
    assert !Granting(Start(now));
    RunKeepsTimely(Start(now), before, backoff);
    RunKeepsTimely(Run(Start(now), before, backoff), after, backoff);
  }

  // ---------- why the hypothesis is needed, and how exactly ----------

  /** A second attempt joins one in flight exactly when its clock reading has reached the
      deadline of the first and the budget is not spent. */
  lemma OverlapIffDeadlinePassed(w: World, c: nat, d: nat, read: int, backoff: int)
    requires w.order.Some? && w.order.value.state == Reserved
    requires c in w.flights && w.order.value.nextAttemptAt == w.flights[c].deadline != 0
    requires d !in w.flights
    ensures d in Step(w, StartAttempt(d, read), backoff).flights <==>
      Unix(read) >= w.flights[c].deadline && w.order.value.attempts < w.order.value.maxAttempts
  {}

  /** Settled is left exactly by a late outcome: one attempt that was still in flight when the
      order was settled records what the deliverer answered. */
  lemma SettledIsLeftIffLateOutcome(w: World, a: Action, backoff: int)
    requires BudgetInv(w) && w.order.Some? && w.order.value.state == Settled
    ensures Step(w, a, backoff).order.value.state != Settled <==>
      a.Record? && a.attempt in w.flights && w.flights[a.attempt].answer.Some?
    ensures Step(w, a, backoff).order.value.state != Settled ==>
      Step(w, a, backoff).order.value.state ==
        if w.flights[a.attempt].answer.value.Granted? then Delivered else Exhausted
  {}

  /** Two claimed attempts that the deliverer both grants: with one attempt in flight that set
      the stored deadline, a second that starts before its answer adds two grants exactly when
      its reading has reached that deadline and budget is left. */
  lemma SecondGrantIffDeadlinePassed(w: World, c: nat, d: nat, read: int, backoff: int)
    requires w.order.Some? && w.order.value.state == Reserved
    requires c in w.flights && w.flights[c].answer.None? && d !in w.flights
    requires w.order.value.nextAttemptAt == w.flights[c].deadline != 0
    ensures var started := Step(w, StartAttempt(d, read), backoff);
      Step(Step(started, Deliver(c, Granted), backoff), Deliver(d, Granted), backoff).grants == w.grants + 2 <==>
      Unix(read) >= w.flights[c].deadline && w.order.value.attempts < w.order.value.maxAttempts
  {
    var started := Step(w, StartAttempt(d, read), backoff);
    assert c in started.flights && started.flights[c] == w.flights[c];
  }

  /** A crash after the grant and before its record leaves the order as the claim left it: the
      next attempt is granted again, with no outcome late, exactly when the order is due and
      budget is left. */
  lemma GrantedAgainAfterCrashIffDue(w: World, c: nat, d: nat, read: int, backoff: int)
    requires w.order.Some? && w.order.value.state == Reserved
    requires c in w.flights && w.flights[c].answer.None? && d !in w.flights
    ensures var crashed := Step(Step(w, Deliver(c, Granted), backoff), Crash(c), backoff);
      var again := Step(Step(crashed, StartAttempt(d, read), backoff), Deliver(d, Granted), backoff);
      && crashed.order == w.order && c !in crashed.flights && crashed.grants == w.grants + 1
      && (again.grants == w.grants + 2 <==>
            w.order.value.Due(Unix(read)) && w.order.value.attempts < w.order.value.maxAttempts)
  {
    var crashed := Step(Step(w, Deliver(c, Granted), backoff), Crash(c), backoff);
    assert d !in crashed.flights;
  }

  function SampleOrder(maxAttempts: int): Order
  {
    NewOrder(Purchase("o1", 1, "store", "gems", 100, "USD"), 1, NANOS, maxAttempts)
  }

  /** Without it the goods can be granted twice: two attempts five seconds apart, the first one
      still with the deliverer. */
  lemma TwoGrantsWhenLate()
    ensures var late := [Create(SampleOrder(2)), StartAttempt(0, NANOS), Tick(6 * NANOS), StartAttempt(1, 6 * NANOS),
                         Deliver(0, Granted), Deliver(1, Granted)];
      && LegalRun(Start(NANOS), late, 5 * NANOS)
      && Run(Start(NANOS), late, 5 * NANOS).grants == 2
  {
    var w1 := Run(Start(NANOS), [Create(SampleOrder(2)), StartAttempt(0, NANOS)], 5 * NANOS);
    OpeningRun(2, [Tick(6 * NANOS), StartAttempt(1, 6 * NANOS), Deliver(0, Granted), Deliver(1, Granted)]);
    var w2 := Step(w1, Tick(6 * NANOS), 5 * NANOS);
    var w3 := Step(w2, StartAttempt(1, 6 * NANOS), 5 * NANOS);
    var w4 := Step(w3, Deliver(0, Granted), 5 * NANOS);
    assert Step(w4, Deliver(1, Granted), 5 * NANOS).grants == 2;
    RunOfTwo(w4, Deliver(1, Granted), [], 5 * NANOS);
    RunOfTwo(w3, Deliver(0, Granted), [Deliver(1, Granted)], 5 * NANOS);
    RunOfTwo(w2, StartAttempt(1, 6 * NANOS), [Deliver(0, Granted), Deliver(1, Granted)], 5 * NANOS);
    RunOfTwo(w1, Tick(6 * NANOS), [StartAttempt(1, 6 * NANOS), Deliver(0, Granted), Deliver(1, Granted)], 5 * NANOS);
  }

  /** An order is recorded and its first attempt claimed. */
  lemma OpeningRun(maxAttempts: int, rest: seq<Action>)
    requires maxAttempts > 0
    ensures var opening := [Create(SampleOrder(maxAttempts)), StartAttempt(0, NANOS)];
      var w := Run(Start(NANOS), opening, 5 * NANOS);
      var o := SampleOrder(maxAttempts);
      && w == World(Some(o.(attempts := 1, nextAttemptAt := 6, updatedAt := 1)), NANOS,
                    map[0 := Flight(1, 6, None)], 1, 0)
      && Run(Start(NANOS), opening + rest, 5 * NANOS) == Run(w, rest, 5 * NANOS)
      && (LegalRun(Start(NANOS), opening + rest, 5 * NANOS) <==> LegalRun(w, rest, 5 * NANOS))
  {
    var created := Step(Start(NANOS), Create(SampleOrder(maxAttempts)), 5 * NANOS);
    var w := Step(created, StartAttempt(0, NANOS), 5 * NANOS);
    RunOfTwo(Start(NANOS), Create(SampleOrder(maxAttempts)), [StartAttempt(0, NANOS)] + rest, 5 * NANOS);
    RunOfTwo(created, StartAttempt(0, NANOS), rest, 5 * NANOS);
    RunOfTwo(Start(NANOS), Create(SampleOrder(maxAttempts)), [StartAttempt(0, NANOS)], 5 * NANOS);
    RunOfTwo(created, StartAttempt(0, NANOS), [], 5 * NANOS);
    assert [Create(SampleOrder(maxAttempts)), StartAttempt(0, NANOS)] + rest
        == [Create(SampleOrder(maxAttempts))] + ([StartAttempt(0, NANOS)] + rest);
  }

  const CRASHING: seq<Action> :=
    [Deliver(0, Granted), Crash(0), Tick(6 * NANOS), StartAttempt(1, 6 * NANOS), Deliver(1, Granted)]

  /** No outcome late, and granted twice: the process died between the grant and its record. */
  lemma TwoGrantsAfterCrash()
    ensures var opening := [Create(SampleOrder(2)), StartAttempt(0, NANOS)];
      && LegalRun(Start(NANOS), opening + CRASHING, 5 * NANOS)
      && Run(Start(NANOS), opening + CRASHING, 5 * NANOS).grants == 2
  {
    OpeningRun(2, CRASHING);
    var w1 := Run(Start(NANOS), [Create(SampleOrder(2)), StartAttempt(0, NANOS)], 5 * NANOS);
    var w2 := Step(w1, Deliver(0, Granted), 5 * NANOS);
    var w3 := Step(w2, Crash(0), 5 * NANOS);
    var w4 := Step(w3, Tick(6 * NANOS), 5 * NANOS);
    var w5 := Step(w4, StartAttempt(1, 6 * NANOS), 5 * NANOS);
    assert Step(w5, Deliver(1, Granted), 5 * NANOS).grants == 2;
    RunOfTwo(w5, Deliver(1, Granted), [], 5 * NANOS);
    RunOfTwo(w4, StartAttempt(1, 6 * NANOS), CRASHING[4..], 5 * NANOS);
    RunOfTwo(w3, Tick(6 * NANOS), CRASHING[3..], 5 * NANOS);
    RunOfTwo(w2, Crash(0), CRASHING[2..], 5 * NANOS);
    RunOfTwo(w1, Deliver(0, Granted), CRASHING[1..], 5 * NANOS);
  }

  const SETTLING: seq<Action> := [Tick(6 * NANOS), StartAttempt(1, 6 * NANOS), SettleIt("refunded", 6 * NANOS)]

  /** An order whose only attempt is still with the deliverer is found out of budget, settled
      by an operator, and then delivered after all. */
  lemma SettledThenDelivered()
    ensures var actions := [Create(SampleOrder(1)), StartAttempt(0, NANOS)] + SETTLING;
      var settled := Run(Start(NANOS), actions, 5 * NANOS);
      var final := Run(settled, [Deliver(0, Granted), Record(0)], 5 * NANOS);
      && LegalRun(Start(NANOS), actions, 5 * NANOS)
      && LegalRun(settled, [Deliver(0, Granted), Record(0)], 5 * NANOS)
      && settled.order.Some? && settled.order.value.state == Settled
      && final.order.Some? && final.order.value.state == Delivered
  {
    OpeningRun(1, SETTLING);
    var w1 := Run(Start(NANOS), [Create(SampleOrder(1)), StartAttempt(0, NANOS)], 5 * NANOS);
    SettlingRun(w1);
    LateRecordDelivers(Run(w1, SETTLING, 5 * NANOS));
  }

  lemma SettlingRun(w: World)
    requires w.order.Some? && w.order.value.state == Reserved && w.order.value.nextAttemptAt == 6
    requires w.order.value.attempts >= w.order.value.maxAttempts && w.now == NANOS
    requires 0 in w.flights && 1 !in w.flights && w.flights[0].answer.None?
    ensures var settled := Run(w, SETTLING, 5 * NANOS);
      && LegalRun(w, SETTLING, 5 * NANOS)
      && settled.order.Some? && settled.order.value.state == Settled && settled.flights == w.flights
  {
    var w2 := Step(w, Tick(6 * NANOS), 5 * NANOS);
    var w3 := Step(w2, StartAttempt(1, 6 * NANOS), 5 * NANOS);
    RunOfTwo(w3, SettleIt("refunded", 6 * NANOS), [], 5 * NANOS);
    RunOfTwo(w2, StartAttempt(1, 6 * NANOS), SETTLING[2..], 5 * NANOS);
    RunOfTwo(w, Tick(6 * NANOS), SETTLING[1..], 5 * NANOS);
  }

  lemma LateRecordDelivers(w: World)
    requires w.order.Some? && w.order.value.state == Settled && 0 in w.flights && w.flights[0].answer.None?
    ensures var final := Run(w, [Deliver(0, Granted), Record(0)], 5 * NANOS);
      && LegalRun(w, [Deliver(0, Granted), Record(0)], 5 * NANOS)
      && final.order.Some? && final.order.value.state == Delivered
  {
    RunOfTwo(Step(w, Deliver(0, Granted), 5 * NANOS), Record(0), [], 5 * NANOS);
    RunOfTwo(w, Deliver(0, Granted), [Record(0)], 5 * NANOS);
  }

  lemma RunOfTwo(w: World, a: Action, rest: seq<Action>, backoff: int)
    ensures Run(w, [a] + rest, backoff) == Run(Step(w, a, backoff), rest, backoff)
    ensures LegalRun(w, [a] + rest, backoff) <==> Legal(w, a) && LegalRun(Step(w, a, backoff), rest, backoff)
  {
    assert ([a] + rest)[1..] == rest;
  }

  /** The operators' steps are the operators' calls: only an exhausted order moves, to a fresh
      budget that is due at once, or out of reach of every attempt. */
  lemma OperatorsMoveExhaustedOnly(w: World, a: Action, backoff: int)
    requires Operator(a) && w.order.Some?
    ensures var o, after := w.order.value, Step(w, a, backoff);
      && after.flights == w.flights && after.calls == w.calls && after.order.Some?
      && (o.state != Exhausted ==> after == w)
      && (o.state == Exhausted && a.ReopenIt? ==>
            && after.order.value.state == Reserved && after.order.value.attempts == 0
            && after.order.value.reopens == o.reopens + 1 && after.order.value.maxAttempts == o.maxAttempts
            && forall now :: after.order.value.Due(now))
      && (o.state == Exhausted && a.SettleIt? ==>
            && after.order.value.state == Settled && after.order.value.attempts == o.attempts
            && after.order.value.reopens == o.reopens && forall now :: !after.order.value.Due(now))
  {}

  /** An attempt that nobody interrupts, claimed, delivered and recorded, is the three steps. */
  lemma AttemptIsThreeSteps(w: World, c: nat, read: int, backoff: int, answer: Answer)
    requires w.order.Some? && c !in w.flights
    ensures var delivered := Step(Step(w, StartAttempt(c, read), backoff), Deliver(c, answer), backoff);
      var after := Step(delivered, Record(c), backoff);
      && after.order == Some(Attempt(w.order.value, read, backoff, answer).0)
      && after.flights == w.flights
      && after.calls == w.calls + if Claim(w.order.value, read, backoff).1.Claimed? then 1 else 0
  {
    var claimed := Step(w, StartAttempt(c, read), backoff);
    var delivered := Step(claimed, Deliver(c, answer), backoff);
    assert delivered.flights - {c} == w.flights;
  }
}
