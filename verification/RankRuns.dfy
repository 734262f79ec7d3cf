/** Whole runs of submits for one owner: many clients, each a read followed later by a swap,
    interleaved in any way with each other and with traffic for other owners. */
module RankRuns {
  import opened RankMember
  import opened RankBoard
  import opened RankStore

  type Client = nat

  /** A client between its read and its swap; seen is how many submits had been applied when
      it read (history, not state). */
  datatype Pending = Pending(id: string, score: Score, stored: string, ring: string, seen: nat)

  /** The board, the clients in mid-submit, and the ids of the submits applied so far. */
  datatype Traffic = Traffic(redis: Redis, pending: map<Client, Pending>, log: seq<string>)

  datatype Event =
    | Read(client: Client, id: string, score: Score)
    | Swap(client: Client)
    | Elsewhere(action: Action)

  /** The traffic of one leaderboard owner: the request ids there are, and what each adds. */
  datatype Feed = Feed(owner: int64, ids: set<string>, delta: string -> int64)

  function Sum(log: seq<string>, delta: string -> int64): int
  {
    if log == [] then 0 else Sum(log[..|log| - 1], delta) + delta(log[|log| - 1])
  }

  /** What repeated int64 additions make of a sum. */
  function Wrap(n: int): int64 { FromWord(n % TWO64) }

  lemma AddWrapIsWrap(n: int, d: int64)
    ensures AddWrap(Wrap(n), d) == Wrap(n + d)
    ensures -TWO63 <= n < TWO63 ==> Wrap(n) == n
  {}

  predicate OnOther(a: Action, owner: int64)
  {
    !a.ResetAction? && a.owner != owner && WellFormed(a)
  }

  function SwapOf(r: Redis, p: Pending, next: Score): SwapReply
  {
    SwapScript(r, p.score.owner, p.stored, EncodeEntry(next), p.id, AppendRing(p.ring, p.id))
  }

  // ---------- Add ----------

  function AddStep(t: Traffic, e: Event): Traffic
  {
    match e
    case Read(c, id, score) =>
      var stored, ring := MemberOf(t.redis, score.owner), RingField(t.redis, score.owner);
      if RingContains(ring, id) then t
      else t.(pending := t.pending[c := Pending(id, score, stored, ring, |t.log|)])
    case Swap(c) =>
      if c !in t.pending then t
      else
        var p := t.pending[c];
        (match NextScore(p.stored, p.score, Add)
         case Undecodable => t.(pending := t.pending - {c})
         case Next(next, _) =>
           var s := SwapOf(t.redis, p, next);
           Traffic(s.after, t.pending - {c}, if s.applied then t.log + [p.id] else t.log))
    case Elsewhere(a) => t.(redis := Act(t.redis, a))
  }

  /** Submits are of this owner, and an id always comes with the same delta, of either sign. */
  predicate AddFed(f: Feed, e: Event)
  {
    match e
    case Read(_, id, score) =>
      id in f.ids && id != "" && score.owner == f.owner && score.value == f.delta(id)
    case Swap(_) => true
    case Elsewhere(a) => OnOther(a, f.owner)
  }

  /** Besides, ids are comma-free, and a redelivery reads within eight applied submits of its
      first application. */
  predicate AddLegal(f: Feed, t: Traffic, e: Event)
  {
    && AddFed(f, e)
    && (e.Read? ==> PlainId(e.id) && (e.id in t.log ==> e.id in Newest(t.log)))
  }

  function AddRun(t: Traffic, events: seq<Event>): Traffic
    decreases |events|
  {
    if events == [] then t else AddRun(AddStep(t, events[0]), events[1..])
  }

  predicate AddLegalRun(f: Feed, t: Traffic, events: seq<Event>)
    decreases |events|
  {
    events == [] || (AddLegal(f, t, events[0]) && AddLegalRun(f, AddStep(t, events[0]), events[1..]))
  }

  /** A client about to swap finds the member it read, although submits were applied since. */
  predicate Recurs(t: Traffic, c: Client)
  {
    c in t.pending && t.pending[c].seen < |t.log| && MemberOf(t.redis, t.pending[c].score.owner) == t.pending[c].stored
  }

  predicate NoRecurrence(t: Traffic, events: seq<Event>)
    decreases |events|
  {
    events == [] ||
    ((events[0].Swap? ==> !Recurs(t, events[0].client)) && NoRecurrence(AddStep(t, events[0]), events[1..]))
  }

  const QUIET: Traffic := Traffic(EMPTY, map[], [])

  ghost predicate NoRepeats(log: seq<string>) { forall i, j | 0 <= i < j < |log| :: log[i] != log[j] }

  // ---------- what always holds: the value is the sum of the log ----------

  /** A member that stands for the first n applied submits. */
  ghost predicate StandsFor(f: Feed, member: string, log: seq<string>, n: nat)
    requires n <= |log|
  {
    if n == 0 then member == ""
    else EntryOf(member, f.owner) && DecodeEntry(member).score.value == Wrap(Sum(log[..n], f.delta))
  }

  ghost predicate PendingFed(f: Feed, p: Pending, log: seq<string>)
  {
    && p.id in f.ids && p.id != "" && p.score.owner == f.owner && p.score.value == f.delta(p.id)
    && p.seen <= |log| && StandsFor(f, p.stored, log, p.seen)
  }

  ghost predicate SumInv(f: Feed, t: Traffic)
  {
    && f.owner != 0 && Consistent(t.redis)
    && (forall id | id in t.log :: id in f.ids)
    && StandsFor(f, MemberOf(t.redis, f.owner), t.log, |t.log|)
    && forall c | c in t.pending :: PendingFed(f, t.pending[c], t.log)
  }

  lemma EmptyDoesNotDecode()
    ensures DecodeEntry("").Err?
  {}

  lemma EntriesAreNotEmpty(member: string, owner: int64)
    requires EntryOf(member, owner)
    ensures member != ""
  {
    EmptyDoesNotDecode();
  }

  lemma SumOneMore(log: seq<string>, id: string, delta: string -> int64)
    ensures Sum(log + [id], delta) == Sum(log, delta) + delta(id)
  {
    assert (log + [id])[..|log|] == log;
  }

  lemma KeepBriefKeepsRest(next: Score, current: Score)
    ensures KeepBrief(next, current) == next.(brief := KeepBrief(next, current).brief)
  {}

  lemma AddToNothing(score: Score)
    ensures NextScore("", score, Add) == Next(score, true)
  {}

  lemma AddToStored(stored: string, score: Score)
    requires stored != "" && DecodeEntry(stored).Ok?
    ensures var current, n := DecodeEntry(stored).score, NextScore(stored, score, Add);
      n.Next? && n.score == score.(value := AddWrap(current.value, score.value), brief := n.score.brief)
  {
    hide DecodeEntry, AddWrap, KeepBrief;
    var current := DecodeEntry(stored).score;
    KeepBriefKeepsRest(score.(value := AddWrap(current.value, score.value)), current);
  }

  lemma StoredSum(f: Feed, stored: string, log: seq<string>)
    requires StandsFor(f, stored, log, |log|)
    ensures if log == [] then stored == "" && Sum(log, f.delta) == 0
            else stored != "" && DecodeEntry(stored).Ok? && DecodeEntry(stored).score.value == Wrap(Sum(log, f.delta))
  {
    hide EncodeEntry, DecodeEntry, Wrap;
    assert log[..|log|] == log;
    if log != [] { EntriesAreNotEmpty(stored, f.owner); }
  }

  /** What an Add makes of a member that stands for the whole log. */
  lemma AddedScore(f: Feed, stored: string, score: Score, id: string, log: seq<string>)
    requires StandsFor(f, stored, log, |log|) && score.owner == f.owner && score.value == f.delta(id)
    ensures NextScore(stored, score, Add).Next?
    ensures var next := NextScore(stored, score, Add).score;
      next.owner == f.owner && next.tie == score.tie && next.value == Wrap(Sum(log + [id], f.delta))
  {
    hide DecodeEntry, StandsFor, Wrap, AddWrap, NextScore, Sum;
    SumOneMore(log, id, f.delta);
    StoredSum(f, stored, log);
    if log == [] {
      AddWrapIsWrap(score.value, 0);
      AddToNothing(score);
    } else {
      AddWrapIsWrap(Sum(log, f.delta), score.value);
      AddToStored(stored, score);
    }
  }

  /** A swap that meets the member it expects applies, whether or not that member recurred. */
  lemma AppliedAdd(f: Feed, t: Traffic, p: Pending)
    requires SumInv(f, t) && PendingFed(f, p, t.log) && MemberOf(t.redis, f.owner) == p.stored
    ensures NextScore(p.stored, p.score, Add).Next?
    ensures var next := NextScore(p.stored, p.score, Add).score;
      var s := SwapOf(t.redis, p, next);
      && s.applied && Consistent(s.after)
      && StandsFor(f, MemberOf(s.after, f.owner), t.log + [p.id], |t.log| + 1)
      && RingField(s.after, f.owner) == AppendRing(p.ring, p.id)
  {
    hide EncodeEntry, DecodeEntry, Consistent, AppendRing, EntryOf, NextScore, SwapScript, Sum, Wrap;
    AddedScore(f, p.stored, p.score, p.id, t.log);
    var next := NextScore(p.stored, p.score, Add).score;
    SwapInstalls(t.redis, f.owner, p.stored, next, p.id, AppendRing(p.ring, p.id));
    assert (t.log + [p.id])[..|t.log| + 1] == t.log + [p.id];
  }

  lemma LostSwap(r: Redis, p: Pending, n: Next)
    requires Consistent(r) && MemberOf(r, p.score.owner) != p.stored
    ensures n.Next? ==> SwapOf(r, p, n.score) == SwapReply(r, false, SwapOf(r, p, n.score).current)
  {
    hide EncodeEntry, Consistent, AppendRing;
    if n.Next? {
      SwapIsCompareAndSwap(r, p.score.owner, p.stored, EncodeEntry(n.score), p.id, AppendRing(p.ring, p.id));
    }
  }

  /** Traffic for other owners keeps the board consistent and leaves this owner alone. */
  lemma OtherOwnersOnly(r: Redis, a: Action, owner: int64)
    requires Consistent(r) && OnOther(a, owner)
    ensures Consistent(Act(r, a))
    ensures MemberOf(Act(r, a), owner) == MemberOf(r, owner) && RingField(Act(r, a), owner) == RingField(r, owner)
  {
    hide EntryOf;
    ActKeepsConsistent(r, a);
    hide Consistent;
  }

  /** A swap applies exactly when the member is the one read; it then logs its id and writes
      the ring it computed from the one read. */
  lemma SwapOutcome(f: Feed, t: Traffic, c: Client)
    requires SumInv(f, t) && c in t.pending
    ensures var p, after := t.pending[c], AddStep(t, Swap(c));
      && after.pending == t.pending - {c}
      && if MemberOf(t.redis, f.owner) == p.stored then
           && after.log == t.log + [p.id] && Consistent(after.redis)
           && StandsFor(f, MemberOf(after.redis, f.owner), after.log, |after.log|)
           && RingField(after.redis, f.owner) == AppendRing(p.ring, p.id)
         else after.log == t.log && after.redis == t.redis
  {
    hide EncodeEntry, DecodeEntry, EntryOf, Consistent, Sum, AppendRing, NextScore, StandsFor, SwapScript;
    var p := t.pending[c];
    assert PendingFed(f, p, t.log);
    if MemberOf(t.redis, f.owner) == p.stored {
      AppliedAdd(f, t, p);
    } else {
      LostSwap(t.redis, p, NextScore(p.stored, p.score, Add));
    }
  }

  lemma LongerLogKeepsFed(f: Feed, p: Pending, log: seq<string>, id: string)
    requires PendingFed(f, p, log)
    ensures PendingFed(f, p, log + [id])
  {
    hide EncodeEntry, DecodeEntry, EntryOf, Sum;
    assert (log + [id])[..p.seen] == log[..p.seen];
  }

  lemma StepKeepsSum(f: Feed, t: Traffic, e: Event)
    requires SumInv(f, t) && AddFed(f, e)
    ensures SumInv(f, AddStep(t, e))
  {
    hide EncodeEntry, DecodeEntry, EntryOf, Consistent, RingContains, Sum, AppendRing, NextScore, StandsFor, SwapOf,
         Act;
    match e {
      case Read(_, _, _) =>
      case Elsewhere(a) => OtherOwnersOnly(t.redis, a, f.owner);
      case Swap(c) =>
        if c in t.pending {
          SwapOutcome(f, t, c);
          forall d | d in t.pending
            ensures PendingFed(f, t.pending[d], t.log + [t.pending[c].id])
          {
            LongerLogKeepsFed(f, t.pending[d], t.log, t.pending[c].id);
          }
        }
    }
  }

  lemma QuietInv(f: Feed)
    requires f.owner != 0
    ensures AddInv(f, QUIET)
  {
    assert Newest([]) == [];
  }

  predicate FedRun(f: Feed, events: seq<Event>) { forall e | e in events :: AddFed(f, e) }

  lemma {:induction false} RunKeepsSum(f: Feed, t: Traffic, events: seq<Event>)
    requires SumInv(f, t) && FedRun(f, events)
    ensures SumInv(f, AddRun(t, events))
    decreases |events|
  {
    hide SumInv, AddStep, AddFed;
    if events != [] {
      assert events[0] in events;
      StepKeepsSum(f, t, events[0]);
      RunKeepsSum(f, AddStep(t, events[0]), events[1..]);
    }
  }

  /** Whatever the deltas, the ids and the redeliveries, the stored value is the wrapped sum
      of the applied submits, one delta for each application: nothing is lost. */
  lemma ValueIsTheSumOfTheLog(f: Feed, events: seq<Event>)
    requires f.owner != 0 && FedRun(f, events)
    ensures var t := AddRun(QUIET, events);
      && Consistent(t.redis)
      && (f.owner in t.redis.members <==> t.log != [])
      && (t.log != [] ==> Scores(t.redis)[f.owner].value == Wrap(Sum(t.log, f.delta)))
  {
    hide SumInv, OnceInv, Consistent, AddRun, FedRun, Scores, Sum, Wrap;
    QuietInv(f);
    RunKeepsSum(f, QUIET, events);
    SumInvMeaning(f, AddRun(QUIET, events));
  }

  lemma SumInvMeaning(f: Feed, t: Traffic)
    requires SumInv(f, t)
    ensures Consistent(t.redis)
    ensures f.owner in t.redis.members <==> t.log != []
    ensures t.log != [] ==> Scores(t.redis)[f.owner].value == Wrap(Sum(t.log, f.delta))
  {
    hide EncodeEntry, DecodeEntry, Wrap;
    assert t.log[..|t.log|] == t.log;
    if f.owner in t.redis.members { MemberNotEmpty(t.redis, f.owner); }
    if t.log != [] { EmptyDoesNotDecode(); }
  }

  // ---------- what holds while no member recurs: every request once ----------

  /** A pending submit of an id not applied before its read, with the ring of that moment. */
  predicate PendingOnce(p: Pending, log: seq<string>)
  {
    PlainId(p.id) && p.seen <= |log| && p.id !in log[..p.seen] && p.ring == RingOf(log[..p.seen])
  }

  /** No id applied twice, and the ring is the window over the whole log. */
  ghost predicate OnceInv(f: Feed, t: Traffic)
  {
    && NoRepeats(t.log)
    && (forall id | id in t.log :: PlainId(id))
    && RingField(t.redis, f.owner) == RingOf(t.log)
    && forall c | c in t.pending :: PendingOnce(t.pending[c], t.log)
  }

  ghost predicate AddInv(f: Feed, t: Traffic) { SumInv(f, t) && OnceInv(f, t) }

  lemma NewestIsPart(log: seq<string>)
    ensures forall id | id in Newest(log) :: id in log
  {}

  lemma LongerLogKeepsOnce(p: Pending, log: seq<string>, id: string)
    requires PendingOnce(p, log)
    ensures PendingOnce(p, log + [id])
  {
    hide RingOf;
    assert (log + [id])[..p.seen] == log[..p.seen];
  }

  lemma StepKeepsOnce(f: Feed, t: Traffic, e: Event)
    requires AddInv(f, t) && AddLegal(f, t, e)
    requires e.Swap? ==> !Recurs(t, e.client)
    ensures OnceInv(f, AddStep(t, e))
  {
    hide EncodeEntry, DecodeEntry, EntryOf, Consistent, RingContains, Newest, RingOf, Sum, AppendRing, NextScore,
         StandsFor, SwapOf, Act;
    assert t.log[..|t.log|] == t.log;
    match e {
      case Read(_, id, _) => RingIsWindow(t.log, id);
      case Elsewhere(a) => OtherOwnersOnly(t.redis, a, f.owner);
      case Swap(c) =>
        if c in t.pending {
          SwapOutcome(f, t, c);
          var p := t.pending[c];
          assert PendingOnce(p, t.log) && PendingFed(f, p, t.log);
          if MemberOf(t.redis, f.owner) == p.stored {
            NewestIsPart(t.log);
            RingIsWindow(t.log, p.id);
            forall d | d in t.pending
              ensures PendingOnce(t.pending[d], t.log + [p.id])
            {
              LongerLogKeepsOnce(t.pending[d], t.log, p.id);
            }
          }
        }
    }
  }

  lemma {:induction false} AddRunKeepsInv(f: Feed, t: Traffic, events: seq<Event>)
    requires AddInv(f, t) && AddLegalRun(f, t, events) && NoRecurrence(t, events)
    ensures AddInv(f, AddRun(t, events))
    decreases |events|
  {
    hide SumInv, OnceInv, AddStep, AddFed, Recurs;
    if events != [] {
      StepKeepsSum(f, t, events[0]);
      StepKeepsOnce(f, t, events[0]);
      AddRunKeepsInv(f, AddStep(t, events[0]), events[1..]);
    }
  }

  /** However the submits of an owner are redelivered and interleaved, as long as no swap meets
      a member that recurred, no request is applied twice and the stored value is the sum of
      the applied requests' deltas, each once. */
  lemma AddCountsEachRequestOnce(f: Feed, events: seq<Event>)
    requires f.owner != 0 && AddLegalRun(f, QUIET, events) && NoRecurrence(QUIET, events)
    ensures var t := AddRun(QUIET, events);
      && NoRepeats(t.log)
      && Consistent(t.redis)
      && (f.owner in t.redis.members <==> t.log != [])
      && (t.log != [] ==> Scores(t.redis)[f.owner].value == Wrap(Sum(t.log, f.delta)))
  {
    hide SumInv, Consistent, AddRun, AddLegalRun, NoRecurrence, Scores, Sum, Wrap;
    QuietInv(f);
    AddRunKeepsInv(f, QUIET, events);
    SumInvMeaning(f, AddRun(QUIET, events));
  }

  /** Read and swapped with nothing in between, a request is applied exactly when the ring as
      it stands does not name it. */
  lemma AppliedIffNotInRing(f: Feed, t: Traffic, c: Client, id: string, score: Score)
    requires SumInv(f, t) && AddFed(f, Read(c, id, score))
    ensures var after := AddStep(AddStep(t.(pending := t.pending - {c}), Read(c, id, score)), Swap(c));
      after.log == if RingContains(RingField(t.redis, f.owner), id) then t.log else t.log + [id]
  {
    hide EncodeEntry, DecodeEntry, EntryOf, Consistent, RingContains, Sum, AppendRing, NextScore, StandsFor, SwapOf;
    var read := AddStep(t.(pending := t.pending - {c}), Read(c, id, score));
    StepKeepsSum(f, t.(pending := t.pending - {c}), Read(c, id, score));
    if c in read.pending { SwapOutcome(f, read, c); }
  }

  /** So while no member recurred, a request is applied exactly when it is not among the last
      eight applied, even if it was applied before. */
  lemma AppliedIffOutsideWindow(f: Feed, t: Traffic, c: Client, id: string, score: Score)
    requires AddInv(f, t) && AddFed(f, Read(c, id, score)) && PlainId(id)
    ensures var after := AddStep(AddStep(t.(pending := t.pending - {c}), Read(c, id, score)), Swap(c));
      after.log == if id in Newest(t.log) then t.log else t.log + [id]
  {
    hide RingContains, Newest, RingOf, Consistent, StandsFor, AddStep;
    AppliedIffNotInRing(f, t, c, id, score);
    RingIsWindow(t.log, id);
  }

  // ---------- positive deltas ----------

  /** Every submit raises the value, and totals stay in int64. */
  predicate Rising(f: Feed, t: Traffic, e: Event)
  {
    match e
    case Read(_, id, _) => f.delta(id) > 0
    case Swap(c) => c in t.pending ==> Sum(t.log, f.delta) + f.delta(t.pending[c].id) < TWO63
    case Elsewhere(_) => true
  }

  predicate RisingRun(f: Feed, t: Traffic, events: seq<Event>)
    decreases |events|
  {
    events == [] || (Rising(f, t, events[0]) && RisingRun(f, AddStep(t, events[0]), events[1..]))
  }

  ghost predicate RisenSoFar(f: Feed, t: Traffic)
  {
    && (forall id | id in t.log :: f.delta(id) > 0)
    && (forall c | c in t.pending :: f.delta(t.pending[c].id) > 0)
    && Sum(t.log, f.delta) < TWO63
  }

  lemma {:induction false} SumGrows(log: seq<string>, delta: string -> int64, n: nat)
    requires n <= |log| && forall id | id in log :: delta(id) > 0
    ensures n < |log| ==> Sum(log[..n], delta) < Sum(log, delta)
    ensures 0 <= Sum(log, delta)
    decreases |log|
  {
    if log != [] {
      var front := log[..|log| - 1];
      SumGrows(front, delta, if n < |log| then n else 0);
      assert n < |log| ==> log[..n] == front[..n];
      assert n == |front| ==> front[..n] == front;
    }
  }

  /** With positive deltas the member tells which applied prefix it stands for, so it never
      recurs. */
  lemma MemberNamesPrefix(f: Feed, t: Traffic, c: Client)
    requires SumInv(f, t) && RisenSoFar(f, t)
    ensures !Recurs(t, c)
  {
    hide EncodeEntry, DecodeEntry, Consistent, Wrap;
    if Recurs(t, c) {
      var p, log := t.pending[c], t.log;
      assert PendingFed(f, p, log);
      assert log[..|log|] == log;
      EntriesAreNotEmpty(MemberOf(t.redis, f.owner), f.owner);
      SumGrows(log, f.delta, p.seen);
      SumGrows(log[..p.seen], f.delta, 0);
      AddWrapIsWrap(Sum(log, f.delta), 0);
      AddWrapIsWrap(Sum(log[..p.seen], f.delta), 0);
      assert false;
    }
  }

  lemma StepKeepsRisen(f: Feed, t: Traffic, e: Event)
    requires SumInv(f, t) && RisenSoFar(f, t) && Rising(f, t, e) && AddFed(f, e)
    ensures RisenSoFar(f, AddStep(t, e))
  {
    hide EncodeEntry, DecodeEntry, EntryOf, Consistent, RingContains, Sum, AppendRing, NextScore, StandsFor, SwapOf,
         Act;
    if e.Swap? && e.client in t.pending {
      SwapOutcome(f, t, e.client);
      SumOneMore(t.log, t.pending[e.client].id, f.delta);
    }
  }

  lemma {:induction false} RisingNeverRecurs(f: Feed, t: Traffic, events: seq<Event>)
    requires SumInv(f, t) && RisenSoFar(f, t)
    requires AddLegalRun(f, t, events) && RisingRun(f, t, events)
    ensures NoRecurrence(t, events)
    ensures RisenSoFar(f, AddRun(t, events))
    decreases |events|
  {
    hide SumInv, RisenSoFar, AddStep, AddFed, Recurs, Rising;
    if events != [] {
      var e := events[0];
      if e.Swap? { MemberNamesPrefix(f, t, e.client); }
      StepKeepsSum(f, t, e);
      StepKeepsRisen(f, t, e);
      RisingNeverRecurs(f, AddStep(t, e), events[1..]);
    }
  }

  /** With positive deltas and running totals in int64 every request counts once. */
  lemma RisingAddsCountOnce(f: Feed, events: seq<Event>)
    requires f.owner != 0 && AddLegalRun(f, QUIET, events) && RisingRun(f, QUIET, events)
    ensures var t := AddRun(QUIET, events);
      && NoRepeats(t.log) && Consistent(t.redis)
      && (t.log != [] ==> f.owner in t.redis.members && Scores(t.redis)[f.owner].value == Sum(t.log, f.delta))
  {
    hide SumInv, OnceInv, RisenSoFar, Consistent, AddRun, AddLegalRun, RisingRun, NoRecurrence, Scores, Sum, Wrap;
    QuietInv(f);
    QuietHasRisen(f);
    RisingNeverRecurs(f, QUIET, events);
    AddCountsEachRequestOnce(f, events);
    RisenSum(f, AddRun(QUIET, events));
  }

  lemma QuietHasRisen(f: Feed)
    ensures RisenSoFar(f, QUIET)
  {}

  lemma RisenSum(f: Feed, t: Traffic)
    requires RisenSoFar(f, t)
    ensures Wrap(Sum(t.log, f.delta)) == Sum(t.log, f.delta)
  {
    hide Wrap;
    SumGrows(t.log, f.delta, 0);
    AddWrapIsWrap(Sum(t.log, f.delta), 0);
  }

  // ---------- Max ----------

  /** A client of a Max feed: about to write a better score, or only to record its request. */
  datatype MaxPending =
    | Write(id: string, score: Score, stored: string, ring: string)
    | Record(id: string, stored: string, ring: string)

  datatype MaxTraffic = MaxTraffic(redis: Redis, pending: map<Client, MaxPending>, log: seq<Score>)

  /** The log holds every submit that took effect or found a score at least as good. */
  function MaxStep(owner: int64, t: MaxTraffic, e: Event): MaxTraffic
  {
    match e
    case Read(c, id, score) =>
      var stored, ring := MemberOf(t.redis, owner), RingField(t.redis, owner);
      if id != "" && RingContains(ring, id) then t
      else (match NextScore(stored, score, Max)
        case Undecodable => t
        case Next(_, changed) =>
          if changed then t.(pending := t.pending[c := Write(id, score, stored, ring)])
          else MaxTraffic(t.redis,
                          if id == "" then t.pending else t.pending[c := Record(id, stored, ring)],
                          t.log + [score]))
    case Swap(c) =>
      if c !in t.pending then t
      else (match t.pending[c]
        case Record(id, stored, ring) =>
          MaxTraffic(SwapScript(t.redis, owner, stored, stored, id, AppendRing(ring, id)).after, t.pending - {c}, t.log)
        case Write(id, score, stored, ring) =>
          (match NextScore(stored, score, Max)
           case Undecodable => t.(pending := t.pending - {c})
           case Next(next, _) =>
             var s := SwapScript(t.redis, owner, stored, EncodeEntry(next), id, AppendRing(ring, id));
             MaxTraffic(s.after, t.pending - {c}, if s.applied then t.log + [score] else t.log)))
    case Elsewhere(a) => t.(redis := Act(t.redis, a))
  }

  predicate MaxLegal(owner: int64, e: Event)
  {
    match e
    case Read(_, _, score) => score.owner == owner
    case Swap(_) => true
    case Elsewhere(a) => OnOther(a, owner)
  }

  function MaxRun(owner: int64, t: MaxTraffic, events: seq<Event>): MaxTraffic
    decreases |events|
  {
    if events == [] then t else MaxRun(owner, MaxStep(owner, t, events[0]), events[1..])
  }

  predicate AtLeast(a: Score, b: Score) { a.value > b.value || (a.value == b.value && a.tie <= b.tie) }

  /** Nothing in the log beats s, and s has a value and tie from the log. */
  predicate BestOf(s: Score, log: seq<Score>)
  {
    && (forall x | x in log :: AtLeast(s, x))
    && (exists x | x in log :: x.value == s.value && x.tie == s.tie)
  }

  ghost predicate MemberIsBest(owner: int64, member: string, log: seq<Score>)
  {
    if log == [] then member == ""
    else EntryOf(member, owner) && BestOf(DecodeEntry(member).score, log)
  }

  ghost predicate MaxPendingOk(owner: int64, p: MaxPending)
  {
    match p
    case Record(_, stored, _) => stored != ""
    case Write(_, score, stored, _) =>
      score.owner == owner && NextScore(stored, score, Max).Next? && NextScore(stored, score, Max).changed
  }

  ghost predicate MaxInv(owner: int64, t: MaxTraffic)
  {
    && Consistent(t.redis)
    && MemberIsBest(owner, MemberOf(t.redis, owner), t.log)
    && forall c | c in t.pending :: MaxPendingOk(owner, t.pending[c])
  }

  /** What Max computes: the incoming score when it is strictly better, the stored one otherwise. */
  lemma MaxKeepsBest(owner: int64, member: string, score: Score, log: seq<Score>)
    requires MemberIsBest(owner, member, log) && score.owner == owner
    ensures var n := NextScore(member, score, Max);
      && n.Next? && n.score.owner == owner && BestOf(n.score, log + [score])
      && (!n.changed ==> log != [] && n.score == DecodeEntry(member).score)
  {
    hide EncodeEntry;
    if log != [] { EmptyDoesNotDecode(); }
    hide DecodeEntry;
    var s := NextScore(member, score, Max).score;
    var all := log + [score];
    assert all[|log|] == score;
    forall x | x in all
      ensures AtLeast(s, x)
    {
      assert x == score || x in log;
    }
    if log != [] && (s.value != score.value || s.tie != score.tie) {
      var x :| x in log && x.value == s.value && x.tie == s.tie;
      assert x in all;
    } else {
      assert score in all;
    }
  }

  lemma MaxReadKeepsInv(owner: int64, t: MaxTraffic, e: Event)
    requires e.Read? && MaxInv(owner, t) && MaxLegal(owner, e)
    ensures MaxInv(owner, MaxStep(owner, t, e))
  {
    hide EncodeEntry, DecodeEntry, Consistent, RingContains, NextScore, EntryOf, BestOf;
    MaxKeepsBest(owner, MemberOf(t.redis, owner), e.score, t.log);
    if t.log != [] { EntriesAreNotEmpty(MemberOf(t.redis, owner), owner); }
  }

  lemma MaxSwapKeepsInv(owner: int64, t: MaxTraffic, e: Event)
    requires owner != 0 && e.Swap? && MaxInv(owner, t)
    ensures MaxInv(owner, MaxStep(owner, t, e))
  {
    hide EncodeEntry, DecodeEntry, Consistent, RingContains, NextScore, EntryOf, BestOf, AppendRing, SwapScript;
    if e.client in t.pending {
      var p := t.pending[e.client];
      assert MaxPendingOk(owner, p);
      match p {
        case Record(id, stored, ring) =>
          SwapIsCompareAndSwap(t.redis, owner, stored, stored, id, AppendRing(ring, id));
          SwapKeepsConsistent(t.redis, owner, stored, stored, id, AppendRing(ring, id));
        case Write(id, score, stored, ring) =>
          var next := NextScore(stored, score, Max).score;
          SwapIsCompareAndSwap(t.redis, owner, stored, EncodeEntry(next), id, AppendRing(ring, id));
          if MemberOf(t.redis, owner) == stored {
            MaxKeepsBest(owner, stored, score, t.log);
            SwapInstalls(t.redis, owner, stored, next, id, AppendRing(ring, id));
          }
      }
    }
  }

  lemma {:induction false} MaxRunKeepsInv(owner: int64, t: MaxTraffic, events: seq<Event>)
    requires owner != 0 && MaxInv(owner, t) && forall e | e in events :: MaxLegal(owner, e)
    ensures MaxInv(owner, MaxRun(owner, t, events))
    decreases |events|
  {
    if events != [] {
      var e := events[0];
      MaxStepKeepsInv(owner, t, e);
      hide MaxInv, MaxStep, MaxLegal;
      MaxRunKeepsInv(owner, MaxStep(owner, t, e), events[1..]);
    }
  }

  lemma MaxStepKeepsInv(owner: int64, t: MaxTraffic, e: Event)
    requires owner != 0 && MaxInv(owner, t) && MaxLegal(owner, e)
    ensures MaxInv(owner, MaxStep(owner, t, e))
  {
    match e {
      case Read(_, _, _) => MaxReadKeepsInv(owner, t, e);
      case Swap(_) => MaxSwapKeepsInv(owner, t, e);
      case Elsewhere(a) =>
        hide EncodeEntry, DecodeEntry, Consistent, EntryOf, BestOf;
        OtherOwnersOnly(t.redis, a, owner);
    }
  }

  /** A Max submit, whenever it lands, never moves the owner down. */
  lemma MaxNeverLowers(owner: int64, t: MaxTraffic, e: Event)
    requires owner != 0 && MaxInv(owner, t) && MaxLegal(owner, e) && owner in t.redis.members
    ensures var after := MaxStep(owner, t, e);
      && Consistent(after.redis) && owner in after.redis.members
      && AtLeast(Scores(after.redis)[owner], Scores(t.redis)[owner])
  {
    hide EncodeEntry, DecodeEntry, NextScore, SwapScript, RingContains, AppendRing;
    MaxStepKeepsInv(owner, t, e);
    MemberNotEmpty(t.redis, owner);
    var after := MaxStep(owner, t, e);
    assert forall x | x in t.log :: x in after.log;
    var s := Scores(t.redis)[owner];
    var x :| x in t.log && x.value == s.value && x.tie == s.tie;
    EntriesAreNotEmpty(MemberOf(after.redis, owner), owner);
  }

  const MAX_QUIET: MaxTraffic := MaxTraffic(EMPTY, map[], [])

  /** After any interleaving of Max submits the stored value and tie are the best of those
      that completed, whatever their order and however often each was repeated. */
  lemma MaxLeavesTheBest(owner: int64, events: seq<Event>)
    requires owner != 0 && forall e | e in events :: MaxLegal(owner, e)
    ensures var t := MaxRun(owner, MAX_QUIET, events);
      && Consistent(t.redis)
      && (owner in t.redis.members <==> t.log != [])
      && (t.log != [] ==> BestOf(Scores(t.redis)[owner], t.log))
  {
    MaxRunKeepsInv(owner, MAX_QUIET, events);
    var t := MaxRun(owner, MAX_QUIET, events);
    hide EncodeEntry, DecodeEntry, MaxRun, BestOf;
    if owner in t.redis.members { MemberNotEmpty(t.redis, owner); }
    if t.log != [] { EntriesAreNotEmpty(MemberOf(t.redis, owner), owner); }
  }

  /** The best value and tie depend only on which scores were submitted. */
  lemma BestIgnoresOrder(a: Score, b: Score, log: seq<Score>, other: seq<Score>)
    requires BestOf(a, log) && BestOf(b, other)
    requires forall x :: x in log <==> x in other
    ensures a.value == b.value && a.tie == b.tie
  {
    var x :| x in log && x.value == a.value && x.tie == a.tie;
    var y :| y in other && y.value == b.value && y.tie == b.tie;
    assert AtLeast(b, x) && AtLeast(a, y);
  }
}
