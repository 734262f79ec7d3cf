/** service/global: the liveness lease of a game server, fenced by an incarnation token. */
module GlobalLease {
  import opened Clock
  import opened Text

  const MAX_LOAD_ENTRIES: nat := 32

  datatype LeaseState = Active | Released | Lapsed

  datatype RouteBinding = RouteBinding(groupID: string, globalSID: int, epoch: nat)

  datatype GameLease = GameLease(gameSID: int, incarnation: string, binding: RouteBinding, state: LeaseState,
                                 load: map<string, string>, startedAt: int, lastHeartbeatAt: int, expiresAt: int)
  {
    predicate Expired(nowUnix: int) { state == Active && expiresAt != 0 && nowUnix >= expiresAt }

    predicate Held(holder: string, nowUnix: int) { state == Active && incarnation == holder && !Expired(nowUnix) }
  }

  datatype LeaseError = RouteMissing | Conflict | LeaseInvalid | LeaseMissing | LeaseNotHolder | LeaseExpired

  datatype Result<+T> = Ok(value: T) | Err(error: LeaseError)

  type Leases = map<int, GameLease>

  // ---------- the three writes, on values ----------

  function Acquire(leases: Leases, sid: int, route: Option<RouteBinding>, now: int, ttl: int, minted: string)
    : (Leases, Result<GameLease>)
  {
    if route.None? then (leases, Err(RouteMissing))
    else if sid in leases && leases[sid].state == Active && !leases[sid].Expired(Unix(now)) then (leases, Err(Conflict))
    else
      var next := GameLease(sid, minted, route.value, Active, map[], Unix(now), Unix(now), Unix(now + ttl));
      (leases[sid := next], Ok(next))
  }

  function Renew(leases: Leases, sid: int, incarnation: string, load: map<string, string>, now: int, ttl: int)
    : (Leases, Result<GameLease>)
  {
    if incarnation == "" || |load| > MAX_LOAD_ENTRIES then (leases, Err(LeaseInvalid))
    else if sid !in leases then (leases, Err(LeaseMissing))
    else
      var current := leases[sid];
      if current.incarnation != incarnation then (leases, Err(LeaseNotHolder))
      else if current.state != Active || current.Expired(Unix(now)) then (leases, Err(LeaseExpired))
      else
        var next := current.(lastHeartbeatAt := Unix(now), expiresAt := Unix(now + ttl), load := load);
        (leases[sid := next], Ok(next))
  }

  function Release(leases: Leases, sid: int, incarnation: string, now: int): (Leases, Option<LeaseError>)
  {
    if incarnation == "" then (leases, Some(LeaseInvalid))
    else if sid !in leases || leases[sid].incarnation != incarnation then (leases, None)
    else if leases[sid].state == Released then (leases, None)
    else (leases[sid := leases[sid].(state := Released, expiresAt := 0, lastHeartbeatAt := Unix(now))], None)
  }

  predicate HeldBy(leases: Leases, sid: int, incarnation: string, nowUnix: int)
  {
    sid in leases && leases[sid].Held(incarnation, nowUnix)
  }

  // ---------- the service ----------

  class LeaseService {
    var leases: Leases
    var routes: map<int, RouteBinding>
    const ttl: int

    constructor (routes: map<int, RouteBinding>, ttl: int)
      requires ttl >= 0
      ensures leases == map[] && this.routes == routes
      ensures this.ttl == if ttl == 0 then 30 * NANOS else ttl
    {
      leases := map[];
      this.routes := routes;
      this.ttl := if ttl == 0 then 30 * NANOS else ttl;
    }

    /** Whatever binding or migrating a server leaves as its route; leases are not looked at. */
    method SetRoute(sid: int, route: RouteBinding)
      modifies this`routes
      ensures routes == old(routes)[sid := route]
    {
      routes := routes[sid := route];
    }

    /** Takes the lease for a new incarnation, unless somebody's is still live. */
    method AcquireLease(sid: int, now: int, minted: string) returns (result: Result<GameLease>)
      modifies this`leases
      ensures (leases, result) ==
        Acquire(old(leases), sid, if sid in routes then Some(routes[sid]) else None, now, ttl, minted)
      ensures result.Ok? <==>
        sid in routes && forall holder | sid in old(leases) && holder == old(leases)[sid].incarnation ::
          !HeldBy(old(leases), sid, holder, Unix(now))
      ensures result.Ok? ==> leases == old(leases)[sid := result.value]
      ensures result.Ok? ==>
        var lease := result.value;
        && lease.gameSID == sid && lease.incarnation == minted && lease.binding == routes[sid]
        && lease.state == Active && lease.load == map[]
        && lease.startedAt == Unix(now) && lease.lastHeartbeatAt == Unix(now) && lease.expiresAt == Unix(now + ttl)
      ensures result.Err? ==> leases == old(leases)
      ensures result == Err(RouteMissing) <==> sid !in routes
      ensures result.Err? ==> result == Err(RouteMissing) || result == Err(Conflict)
    {
      if sid !in routes { return Err(RouteMissing); }
      if sid in leases && leases[sid].state == Active && !leases[sid].Expired(Unix(now)) {
        assert HeldBy(leases, sid, leases[sid].incarnation, Unix(now));
        return Err(Conflict);
      }
      var next := GameLease(sid, minted, routes[sid], Active, map[], Unix(now), Unix(now), Unix(now + ttl));
      leases := leases[sid := next];
      return Ok(next);
    }

    /** A well-formed renewal is accepted exactly when the presented incarnation holds the
        lease, whatever the route has become; it keeps the start time and the binding the
        lease was taken under. */
    method RenewLease(sid: int, incarnation: string, load: map<string, string>, now: int)
      returns (result: Result<GameLease>)
      modifies this`leases
      ensures (leases, result) == Renew(old(leases), sid, incarnation, load, now, ttl)
      ensures result.Ok? <==>
        incarnation != "" && |load| <= MAX_LOAD_ENTRIES && HeldBy(old(leases), sid, incarnation, Unix(now))
      ensures result.Ok? ==> result.value.startedAt == old(leases)[sid].startedAt
                             && result.value.binding == old(leases)[sid].binding && result.value.load == load
      ensures result.Ok? ==>
        && leases == old(leases)[sid := result.value]
        && result.value.gameSID == old(leases)[sid].gameSID && result.value.incarnation == incarnation
        && result.value.state == Active
        && result.value.lastHeartbeatAt == Unix(now) && result.value.expiresAt == Unix(now + ttl)
      ensures result.Err? ==> leases == old(leases)
      ensures result == Err(LeaseInvalid) <==> incarnation == "" || |load| > MAX_LOAD_ENTRIES
      ensures incarnation != "" && |load| <= MAX_LOAD_ENTRIES ==>
        && (result == Err(LeaseMissing) <==> sid !in old(leases))
        && (result == Err(LeaseNotHolder) <==> sid in old(leases) && old(leases)[sid].incarnation != incarnation)
        && (result == Err(LeaseExpired) <==>
              && sid in old(leases) && old(leases)[sid].incarnation == incarnation
              && (old(leases)[sid].state != Active
                  || (old(leases)[sid].expiresAt != 0 && Unix(now) >= old(leases)[sid].expiresAt)))
    {
      if incarnation == "" || |load| > MAX_LOAD_ENTRIES { return Err(LeaseInvalid); }
      if sid !in leases { return Err(LeaseMissing); }
      var current := leases[sid];
      if current.incarnation != incarnation { return Err(LeaseNotHolder); }
      if current.state != Active { return Err(LeaseExpired); }
      if current.Expired(Unix(now)) { return Err(LeaseExpired); }
      current := current.(lastHeartbeatAt := Unix(now), expiresAt := Unix(now + ttl), load := load);
      leases := leases[sid := current];
      return Ok(current);
    }

    /** Afterwards the presented incarnation holds nothing, at any time; another's lease is
        left as it was. */
    method ReleaseLease(sid: int, incarnation: string, now: int) returns (error: Option<LeaseError>)
      modifies this`leases
      ensures (leases, error) == Release(old(leases), sid, incarnation, now)
      ensures error.Some? <==> incarnation == ""
      ensures error.Some? ==> error == Some(LeaseInvalid) && leases == old(leases)
      ensures incarnation != "" ==>
        if sid in old(leases) && old(leases)[sid].incarnation == incarnation && old(leases)[sid].state != Released
        then leases == old(leases)[
            sid := old(leases)[sid].(state := Released, expiresAt := 0, lastHeartbeatAt := Unix(now))]
        else leases == old(leases)
      ensures incarnation != "" ==> forall t :: !HeldBy(leases, sid, incarnation, t)
      ensures forall other, t | other != incarnation ::
        HeldBy(leases, sid, other, t) == HeldBy(old(leases), sid, other, t)
    {
      if incarnation == "" { return Some(LeaseInvalid); }
      if sid !in leases || leases[sid].incarnation != incarnation { return None; }
      if leases[sid].state == Released { return None; }
      leases := leases[sid := leases[sid].(state := Released, expiresAt := 0, lastHeartbeatAt := Unix(now))];
      return None;
    }

    /** A lease whose deadline passed reads as lapsed, so it reads as active exactly when its
        incarnation holds it. */
    method Lease(sid: int, now: int) returns (lease: Option<GameLease>)
      ensures lease.None? <==> sid !in leases
      ensures lease.Some? ==> lease.value == leases[sid].(state := lease.value.state)
      ensures lease.Some? && leases[sid].state != Lapsed ==>
        && (lease.value.state == Active <==> HeldBy(leases, sid, leases[sid].incarnation, Unix(now)))
        && (lease.value.state == Released <==> leases[sid].state == Released)
    {
      if sid !in leases { return None; }
      var found := leases[sid];
      if found.Expired(Unix(now)) { found := found.(state := Lapsed); }
      return Some(found);
    }
  }

  // ---------- runs ----------

  /** The leases, the routes, every incarnation minted so far (history, not state), and the
      time. */
  datatype World = World(leases: Leases, routes: map<int, RouteBinding>, minted: set<string>, clock: int)

  /** An acquire works from the route it resolved, which may have changed since. */
  datatype Call =
    | RouteCall(sid: int, changed: RouteBinding)
    | AcquireCall(sid: int, route: Option<RouteBinding>, incarnation: string)
    | RenewCall(sid: int, incarnation: string, load: map<string, string>)
    | ReleaseCall(sid: int, incarnation: string)

  /** A call read the clock at one moment and its update took effect at another. */
  datatype Event = Event(call: Call, read: int, at: int)

  function Step(w: World, e: Event, ttl: int): World
  {
    match e.call
    case RouteCall(sid, changed) => w.(routes := w.routes[sid := changed], clock := e.at)
    case AcquireCall(sid, route, incarnation) =>
      w.(leases := Acquire(w.leases, sid, route, e.read, ttl, incarnation).0, minted := w.minted + {incarnation},
         clock := e.at)
    case RenewCall(sid, incarnation, load) =>
      w.(leases := Renew(w.leases, sid, incarnation, load, e.read, ttl).0, clock := e.at)
    case ReleaseCall(sid, incarnation) =>
      w.(leases := Release(w.leases, sid, incarnation, e.read).0, clock := e.at)
  }

  function Run(w: World, events: seq<Event>, ttl: int): World
    decreases |events|
  {
    if events == [] then w else Run(Step(w, events[0], ttl), events[1..], ttl)
  }

  /** Time never goes back, a reading is never from the future, incarnations are minted once. */
  predicate FairRun(w: World, events: seq<Event>, ttl: int)
    decreases |events|
  {
    events == [] ||
    (&& w.clock <= events[0].at && events[0].read <= events[0].at
     && (events[0].call.AcquireCall? ==> events[0].call.incarnation !in w.minted)
     && FairRun(Step(w, events[0], ttl), events[1..], ttl))
  }

  /** Every call's reading and update are one moment. */
  predicate InstantRun(events: seq<Event>) { forall i | 0 <= i < |events| :: events[i].read == events[i].at }

  ghost predicate HoldsNow(w: World, sid: int, incarnation: string)
  {
    HeldBy(w.leases, sid, incarnation, Unix(w.clock))
  }

  /** Acquire never replaces a held lease, not even when it works from an old reading: what
      it finds lapsed at its reading is lapsed when it writes. */
  lemma AcquireNeverReplacesHeld(w: World, e: Event, ttl: int, sid: int, holder: string)
    requires e.read <= e.at && e.call.AcquireCall?
    requires HeldBy(w.leases, sid, holder, Unix(e.at))
    ensures sid in Step(w, e, ttl).leases && Step(w, e, ttl).leases[sid] == w.leases[sid]
    ensures e.call.sid == sid ==>
      Acquire(w.leases, sid, e.call.route, e.read, ttl, e.call.incarnation).1.Err?
  {
    UnixIsMonotone(e.read, e.at);
  }

  /** A renewal that read the clock before the lapse and lands after it, with the new deadline
      still ahead. */
  predicate LateRenewal(w: World, e: Event, ttl: int, sid: int, incarnation: string)
  {
    && e.call.RenewCall? && e.call.sid == sid && e.call.incarnation == incarnation
    && incarnation != "" && |e.call.load| <= MAX_LOAD_ENTRIES
    && HeldBy(w.leases, sid, incarnation, Unix(e.read))
    && (Unix(e.read + ttl) == 0 || Unix(e.at) < Unix(e.read + ttl))
  }

  /** One step brings back an incarnation that was not holding only as a late renewal. */
  lemma RevivedOnlyLate(w: World, e: Event, ttl: int, sid: int, incarnation: string)
    requires !HoldsNow(w, sid, incarnation) && incarnation in w.minted
    requires w.clock <= e.at && (e.call.AcquireCall? ==> e.call.incarnation !in w.minted)
    ensures HoldsNow(Step(w, e, ttl), sid, incarnation) <==> LateRenewal(w, e, ttl, sid, incarnation)
  {
    UnixIsMonotone(w.clock, e.at);
  }

  ghost predicate EverHolds(w: World, events: seq<Event>, ttl: int, sid: int, incarnation: string)
    decreases |events|
  {
    HoldsNow(w, sid, incarnation)
    || (events != [] && EverHolds(Step(w, events[0], ttl), events[1..], ttl, sid, incarnation))
  }

  predicate AnyLateRenewal(w: World, events: seq<Event>, ttl: int, sid: int, incarnation: string)
    decreases |events|
  {
    events != [] &&
    (LateRenewal(w, events[0], ttl, sid, incarnation)
     || AnyLateRenewal(Step(w, events[0], ttl), events[1..], ttl, sid, incarnation))
  }

  /** An incarnation that does not hold the lease holds it again later in a run exactly when
      some renewal of it is late; lapse, release and replacement are otherwise final. */
  lemma {:induction false} HeldAgainIffLateRenewal(w: World, events: seq<Event>, ttl: int, sid: int,
                                                   incarnation: string)
    requires FairRun(w, events, ttl)
    requires !HoldsNow(w, sid, incarnation) && incarnation in w.minted
    ensures EverHolds(w, events, ttl, sid, incarnation) <==> AnyLateRenewal(w, events, ttl, sid, incarnation)
    decreases |events|
  {
    if events != [] {
      RevivedOnlyLate(w, events[0], ttl, sid, incarnation);
      if !LateRenewal(w, events[0], ttl, sid, incarnation) {
        HeldAgainIffLateRenewal(Step(w, events[0], ttl), events[1..], ttl, sid, incarnation);
      }
    }
  }

  /** With each call's reading and update one moment, an incarnation that stopped being held
      is never held again in the rest of the run. */
  lemma {:induction false} NeverHeldAgain(w: World, events: seq<Event>, ttl: int, sid: int, incarnation: string)
    requires FairRun(w, events, ttl) && InstantRun(events)
    requires !HoldsNow(w, sid, incarnation) && incarnation in w.minted
    ensures !EverHolds(w, events, ttl, sid, incarnation)
    decreases |events|
  {
    if events != [] {
      RevivedOnlyLate(w, events[0], ttl, sid, incarnation);
      UnixIsMonotone(w.clock, events[0].at);
      assert InstantRun(events[1..]);
      NeverHeldAgain(Step(w, events[0], ttl), events[1..], ttl, sid, incarnation);
    }
  }

  /** Every stored incarnation was minted. */
  predicate Minted(w: World) { forall sid | sid in w.leases :: w.leases[sid].incarnation in w.minted }

  lemma StepKeepsMinted(w: World, e: Event, ttl: int)
    requires Minted(w)
    ensures Minted(Step(w, e, ttl)) && w.minted <= Step(w, e, ttl).minted
  {}

  lemma MintedWhileHeld(w: World, sid: int, incarnation: string)
    requires Minted(w) && HoldsNow(w, sid, incarnation)
    ensures incarnation in w.minted
  {}

  lemma {:induction false} RunInParts(w: World, events: seq<Event>, ttl: int, n: nat)
    requires n <= |events| && Minted(w) && FairRun(w, events, ttl)
    ensures Run(w, events, ttl) == Run(Run(w, events[..n], ttl), events[n..], ttl)
    ensures FairRun(w, events[..n], ttl) && FairRun(Run(w, events[..n], ttl), events[n..], ttl)
    ensures Minted(Run(w, events[..n], ttl)) && w.minted <= Run(w, events[..n], ttl).minted
    decreases n
  {
    hide Step, Minted;
    if n == 0 {
      assert events[..0] == [] && events[0..] == events;
    } else {
      StepKeepsMinted(w, events[0], ttl);
      RunInParts(Step(w, events[0], ttl), events[1..], ttl, n - 1);
      assert events[..n][1..] == events[1..][..n - 1] && events[1..][n - 1..] == events[n..];
    }
  }

  lemma {:induction false} HeldAtTheEnd(w: World, events: seq<Event>, ttl: int, sid: int, incarnation: string)
    requires HoldsNow(Run(w, events, ttl), sid, incarnation)
    ensures EverHolds(w, events, ttl, sid, incarnation)
    decreases |events|
  {
    if events != [] { HeldAtTheEnd(Step(w, events[0], ttl), events[1..], ttl, sid, incarnation); }
  }

  /** Each incarnation holds the lease in one stretch of the run: once it has held it and then
      not, it does not hold it at any later point. */
  lemma HeldInOneStretch(w: World, events: seq<Event>, ttl: int, sid: int, incarnation: string, i: nat, j: nat, k: nat)
    requires FairRun(w, events, ttl) && InstantRun(events) && Minted(w)
    requires i <= j <= k <= |events|
    requires HoldsNow(Run(w, events[..i], ttl), sid, incarnation)
    requires !HoldsNow(Run(w, events[..j], ttl), sid, incarnation)
    ensures !HoldsNow(Run(w, events[..k], ttl), sid, incarnation)
  {
    hide Step, Minted, HoldsNow, Run, FairRun;
    RunInParts(w, events, ttl, j);
    RunInParts(w, events[..j], ttl, i);
    assert events[..j][..i] == events[..i];
    MintedWhileHeld(Run(w, events[..i], ttl), sid, incarnation);
    RunInParts(Run(w, events[..i], ttl), events[..j][i..], ttl, j - i);
    assert events[..j][i..][..j - i] == events[..j][i..];
    RunInParts(Run(w, events[..j], ttl), events[j..], ttl, k - j);
    RunInParts(w, events, ttl, k);
    RunInParts(w, events[..k], ttl, j);
    assert events[..k][..j] == events[..j] && events[..k][j..] == events[j..][..k - j];
    if HoldsNow(Run(w, events[..k], ttl), sid, incarnation) {
      HeldAtTheEnd(Run(w, events[..j], ttl), events[j..][..k - j], ttl, sid, incarnation);
      NeverHeldAgain(Run(w, events[..j], ttl), events[j..][..k - j], ttl, sid, incarnation);
    }
  }

  // ---------- renewals and routes ----------

  /** The lease was taken under a binding that is no longer the server's route. */
  predicate RouteMoved(w: World, sid: int)
  {
    sid in w.leases && sid in w.routes && w.routes[sid] != w.leases[sid].binding
  }

  /** A renewal under another route is refused if and only if it is malformed or its
      incarnation does not hold the lease: the route has no say. Accepted, it leaves the
      lease under the old binding, with a new deadline. */
  lemma RenewalUnderAnotherRoute(w: World, e: Event, ttl: int)
    requires e.call.RenewCall? && RouteMoved(w, e.call.sid)
    ensures var call := e.call;
      var result := Renew(w.leases, call.sid, call.incarnation, call.load, e.read, ttl).1;
      && (result.Err? <==>
            || call.incarnation == "" || |call.load| > MAX_LOAD_ENTRIES
            || !HeldBy(w.leases, call.sid, call.incarnation, Unix(e.read)))
      && (result.Ok? ==>
            && RouteMoved(Step(w, e, ttl), call.sid)
            && Step(w, e, ttl).leases[call.sid].expiresAt == Unix(e.read + ttl))
  {}

  /** A server takes its lease, its route moves to another instance, and its renewal under the
      new route is accepted. */
  lemma MovedRouteIsRenewed() returns (events: seq<Event>)
    ensures var w := Run(World(map[], map[], {}, 0), events, 30 * NANOS);
      && FairRun(World(map[], map[], {}, 0), events, 30 * NANOS) && InstantRun(events)
      && RouteMoved(w, 1) && HeldBy(w.leases, 1, "a", Unix(w.clock)) && w.leases[1].expiresAt == 50
  {
    var before, after := RouteBinding("g", 1, 1), RouteBinding("g", 2, 3);
    var e0 := Event(RouteCall(1, before), NANOS, NANOS);
    var e1 := Event(AcquireCall(1, Some(before), "a"), NANOS, NANOS);
    var e2 := Event(RouteCall(1, after), 10 * NANOS, 10 * NANOS);
    var e3 := Event(RenewCall(1, "a", map[]), 20 * NANOS, 20 * NANOS);
    events := [e0, e1, e2, e3];
    var w0 := World(map[], map[], {}, 0);
    var w1 := Step(w0, e0, 30 * NANOS);
    var w2 := Step(w1, e1, 30 * NANOS);
    var w3 := Step(w2, e2, 30 * NANOS);
    var w4 := Step(w3, e3, 30 * NANOS);
    assert w2.leases[1].expiresAt == 31;
    assert HeldBy(w3.leases, 1, "a", 20);
    Take(w3, events[3..], 30 * NANOS);
    Take(w2, events[2..], 30 * NANOS);
    Take(w1, events[1..], 30 * NANOS);
    Take(w0, events, 30 * NANOS);
    assert Run(w0, events, 30 * NANOS) == w4;
  }

  lemma Take(w: World, events: seq<Event>, ttl: int)
    requires events != []
    ensures Run(w, events, ttl) == Run(Step(w, events[0], ttl), events[1..], ttl)
    ensures |events| == 1 ==> Run(w, events, ttl) == Step(w, events[0], ttl)
    ensures FairRun(w, events, ttl) <==>
      && w.clock <= events[0].at && events[0].read <= events[0].at
      && (events[0].call.AcquireCall? ==> events[0].call.incarnation !in w.minted)
      && FairRun(Step(w, events[0], ttl), events[1..], ttl)
    ensures |events| == 1 ==> FairRun(Step(w, events[0], ttl), events[1..], ttl)
  {
    hide Step;
  }

  // ---------- clocks that disagree ----------

  /** Clocks that disagree do bring a lapsed lease back: acquired at second 1 for 9 seconds, it
      has lapsed when time has come to second 10, and a renewal that read second 9 is accepted
      after that. */
  lemma LateRenewalHappens() returns (events: seq<Event>, late: Event)
    ensures var w := Run(World(map[], map[], {}, 0), events, 9 * NANOS);
      && FairRun(World(map[], map[], {}, 0), events, 9 * NANOS) && FairRun(w, [late], 9 * NANOS)
      && "a" in w.minted && 1 in w.leases && w.leases[1].incarnation == "a" && !HoldsNow(w, 1, "a")
      && HoldsNow(Run(w, [late], 9 * NANOS), 1, "a")
  {
    var route := RouteBinding("g", 1, 1);
    var e0, e1 := Event(RouteCall(1, route), NANOS, NANOS), Event(AcquireCall(1, Some(route), "a"), NANOS, NANOS);
    var e2 := Event(ReleaseCall(2, "b"), 10 * NANOS, 10 * NANOS);
    events, late := [e0, e1, e2], Event(RenewCall(1, "a", map[]), 9 * NANOS, 10 * NANOS);
    var w0 := World(map[], map[], {}, 0);
    var w1 := Step(w0, e0, 9 * NANOS);
    var w2 := Step(w1, e1, 9 * NANOS);
    var w3 := Step(w2, e2, 9 * NANOS);
    assert w3.leases[1].expiresAt == 10 && w3.leases == w2.leases;
    assert Step(w3, late, 9 * NANOS).leases[1].expiresAt == 18;
    Take(w2, events[2..], 9 * NANOS);
    Take(w1, events[1..], 9 * NANOS);
    Take(w0, events, 9 * NANOS);
    Take(w3, [late], 9 * NANOS);
  }
}
