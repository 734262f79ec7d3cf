/** What the member comparison of the swap cannot see: a member that comes back. It says
    exactly when a stale swap goes through, what the ring then forgets, and that nothing else
    makes an Add count twice. */
module RankRecurrence {
  import opened RankMember
  import opened RankBoard
  import opened RankStore
  import opened RankRuns

  /** The score a member stands for. */
  function ScoreIn(member: string): Score
    requires DecodeEntry(member).Ok?
  {
    DecodeEntry(member).score
  }

  lemma EntriesTellScores(a: string, b: string, owner: int64)
    requires EntryOf(a, owner) && EntryOf(b, owner)
    ensures a == b <==> ScoreIn(a) == ScoreIn(b)
  {
    hide DecodeEntry, EncodeEntry;
  }

  /** A swap that read before later submits were applied goes through exactly when the member
      recurs: something had been stored when it read, and sum, tie and kept brief are now the
      same again. */
  lemma StaleSwapLandsIffMemberRecurs(f: Feed, t: Traffic, c: Client)
    requires SumInv(f, t) && c in t.pending && t.pending[c].seen < |t.log|
    ensures var p := t.pending[c];
      && (AddStep(t, Swap(c)).log == t.log + [p.id] <==> Recurs(t, c))
      && (AddStep(t, Swap(c)).log != t.log <==> Recurs(t, c))
      && DecodeEntry(MemberOf(t.redis, f.owner)).Ok? && (p.seen > 0 ==> DecodeEntry(p.stored).Ok?)
      && (Recurs(t, c) <==>
            && p.seen > 0
            && Wrap(Sum(t.log[..p.seen], f.delta)) == Wrap(Sum(t.log, f.delta))
            && ScoreIn(p.stored).tie == ScoreIn(MemberOf(t.redis, f.owner)).tie
            && ScoreIn(p.stored).brief == ScoreIn(MemberOf(t.redis, f.owner)).brief)
  {
    hide DecodeEntry, EncodeEntry, Consistent, Wrap, Sum, AddStep, RingField, AppendRing;
    var p, now := t.pending[c], MemberOf(t.redis, f.owner);
    assert PendingFed(f, p, t.log);
    assert t.log[..|t.log|] == t.log;
    SwapOutcome(f, t, c);
    EntriesAreNotEmpty(now, f.owner);
    if p.seen > 0 { EntriesTellScores(p.stored, now, f.owner); }
  }

  /** The ring such a swap writes extends the one it read, so it names exactly the newest ids
      known at that read and its own: every id applied since is forgotten. */
  lemma RecurrenceForgets(f: Feed, t: Traffic, c: Client, id: string)
    requires AddInv(f, t) && Recurs(t, c) && PlainId(id)
    ensures var p, ring := t.pending[c], RingField(AddStep(t, Swap(c)).redis, f.owner);
      && ring == AppendRing(p.ring, p.id) == RingOf(t.log[..p.seen] + [p.id])
      && (RingContains(ring, id) <==> id in Newest(t.log[..p.seen] + [p.id]))
      && (id in t.log[p.seen..] && id != p.id ==> !RingContains(ring, id))
  {
    hide Consistent, StandsFor, AddStep, AppendRing, RingContains, RingOf, Newest;
    var p := t.pending[c];
    var known := t.log[..p.seen];
    assert PendingFed(f, p, t.log) && PendingOnce(p, t.log);
    SwapOutcome(f, t, c);
    NewestIsPart(known);
    RingIsWindow(known, p.id);
    RingIsWindow(known + [p.id], id);
    NewestIsPart(known + [p.id]);
    if id in t.log[p.seen..] { LaterIsNew(t.log, p.seen, id); }
  }

  lemma LaterIsNew(log: seq<string>, n: nat, id: string)
    requires NoRepeats(log) && n <= |log| && id in log[n..]
    ensures id !in log[..n]
  {}

  lemma LastIsLater(log: seq<string>, n: nat)
    requires n < |log|
    ensures log[|log| - 1] in log[n..]
  {
    assert log[n..][|log| - 1 - n] == log[|log| - 1];
  }

  lemma LastButOneIsNew(log: seq<string>, id: string)
    requires log != []
    ensures log[|log| - 1] in Newest(log + [id])
  {
    var w := Newest(log + [id]);
    assert w[|w| - 2] == log[|log| - 1];
  }

  lemma RepeatsAtTheEnd(log: seq<string>, id: string)
    requires id in log
    ensures !NoRepeats(log + [id])
  {
    var i :| 0 <= i < |log| && log[i] == id;
    assert (log + [id])[i] == (log + [id])[|log|];
  }

  /** While every request has counted once, a swap keeps it so, ring included, exactly when it
      is not a recurrence. */
  lemma OnceIsKeptIffNoRecurrence(f: Feed, t: Traffic, c: Client)
    requires AddInv(f, t)
    ensures OnceInv(f, AddStep(t, Swap(c))) <==> !Recurs(t, c)
  {
    hide Consistent, StandsFor, AddStep, AppendRing, RingContains, RingOf, Newest, SumInv;
    if Recurs(t, c) {
      var p, last, after := t.pending[c], t.log[|t.log| - 1], AddStep(t, Swap(c));
      SwapLogs(f, t, c);
      if p.id in t.log {
        RepeatsAtTheEnd(t.log, p.id);
      } else {
        LastIsLater(t.log, p.seen);
        RecurrenceForgets(f, t, c, last);
        LastButOneIsNew(t.log, p.id);
        if OnceInv(f, after) { RingIsWindow(after.log, last); }
      }
    } else {
      StepKeepsOnce(f, t, Swap(c));
    }
  }

  lemma SwapLogs(f: Feed, t: Traffic, c: Client)
    requires SumInv(f, t) && Recurs(t, c)
    ensures AddStep(t, Swap(c)).log == t.log + [t.pending[c].id] && c !in AddStep(t, Swap(c)).pending
  {
    hide Consistent, StandsFor, AddStep, AppendRing;
    assert PendingFed(f, t.pending[c], t.log);
    SwapOutcome(f, t, c);
  }

  /** A recurrence that is let through leads to a double count at once, or by redelivering the
      last id applied before it, which is well inside the window of eight. */
  lemma RecurrenceCountsTwice(f: Feed, t: Traffic, c: Client) returns (events: seq<Event>)
    requires AddInv(f, t) && Recurs(t, c)
    ensures AddLegalRun(f, t, events) && !NoRepeats(AddRun(t, events).log)
  {
    hide Consistent, StandsFor, AddStep, AppendRing, RingContains, RingOf, Newest, SumInv;
    var p, last, after := t.pending[c], t.log[|t.log| - 1], AddStep(t, Swap(c));
    SwapLogs(f, t, c);
    StepKeepsSum(f, t, Swap(c));
    if p.id in t.log {
      RepeatsAtTheEnd(t.log, p.id);
      events := [Swap(c)];
      RunOne(f, t, Swap(c), []);
    } else {
      LastIsLater(t.log, p.seen);
      LogIsFromFeed(f, t);
      RecurrenceForgets(f, t, c, last);
      LastButOneIsNew(t.log, p.id);
      var read := Read(c, last, Score(f.owner, f.delta(last), 0, []));
      assert after.pending - {c} == after.pending && after.(pending := after.pending - {c}) == after;
      AppliedIffNotInRing(f, after, c, last, read.score);
      RepeatsAtTheEnd(after.log, last);
      events := [Swap(c)] + ([read] + ([Swap(c)] + []));
      RunOne(f, AddStep(after, read), Swap(c), []);
      RunOne(f, after, read, [Swap(c)] + []);
      RunOne(f, t, Swap(c), [read] + ([Swap(c)] + []));
    }
  }

  lemma RunOne(f: Feed, t: Traffic, e: Event, rest: seq<Event>)
    ensures AddRun(t, [e] + rest) == AddRun(AddStep(t, e), rest)
    ensures AddLegalRun(f, t, [e] + rest) <==> AddLegal(f, t, e) && AddLegalRun(f, AddStep(t, e), rest)
    ensures AddRun(t, []) == t && AddLegalRun(f, t, [])
  {
    hide AddStep, AddLegal;
    assert ([e] + rest)[1..] == rest;
  }

  lemma {:induction false} AnyRecurrenceCountsTwice(f: Feed, t: Traffic, events: seq<Event>) returns (more: seq<Event>)
    requires AddInv(f, t) && AddLegalRun(f, t, events) && !NoRecurrence(t, events)
    ensures AddLegalRun(f, t, more) && !NoRepeats(AddRun(t, more).log)
    decreases |events|
  {
    hide SumInv, OnceInv, AddStep, AddFed, Recurs;
    var e := events[0];
    if e.Swap? && Recurs(t, e.client) {
      more := RecurrenceCountsTwice(f, t, e.client);
    } else {
      StepKeepsSum(f, t, e);
      StepKeepsOnce(f, t, e);
      var rest := AnyRecurrenceCountsTwice(f, AddStep(t, e), events[1..]);
      RunOne(f, t, e, rest);
      more := [e] + rest;
    }
  }

  /** From any board on which requests counted once, all legal traffic counts every request
      once if and only if none of it makes a member recur. */
  lemma OnceOnlyIffNothingRecurs(f: Feed, t: Traffic)
    requires AddInv(f, t)
    ensures (forall events: seq<Event> | AddLegalRun(f, t, events) :: NoRepeats(AddRun(t, events).log))
            <==> (forall events: seq<Event> | AddLegalRun(f, t, events) :: NoRecurrence(t, events))
  {
    hide SumInv, AddStep, AddLegalRun, NoRecurrence, AddRun;
    if events: seq<Event> :| AddLegalRun(f, t, events) && !NoRecurrence(t, events) {
      var more := AnyRecurrenceCountsTwice(f, t, events);
    } else {
      forall events: seq<Event> | AddLegalRun(f, t, events)
        ensures NoRepeats(AddRun(t, events).log)
      {
        AddRunKeepsInv(f, t, events);
      }
    }
  }

  // ---------- the condition on the feed ----------

  /** What the deltas of some ids come to. */
  ghost function Total(ids: set<string>, delta: string -> int64): int
  {
    if ids == {} then 0
    else
      var id :| id in ids;
      delta(id) + Total(ids - {id}, delta)
  }

  lemma {:induction false} TotalWithout(ids: set<string>, delta: string -> int64, id: string)
    requires id in ids
    ensures Total(ids, delta) == delta(id) + Total(ids - {id}, delta)
    decreases |ids|
  {
    var x :| x in ids && Total(ids, delta) == delta(x) + Total(ids - {x}, delta);
    if x != id {
      TotalWithout(ids - {x}, delta, id);
      TotalWithout(ids - {id}, delta, x);
      assert ids - {x} - {id} == ids - {id} - {x};
    }
  }

  function IdsIn(log: seq<string>): set<string> { set id | id in log }

  lemma {:induction false} SumIsTotal(log: seq<string>, delta: string -> int64)
    requires NoRepeats(log)
    ensures Sum(log, delta) == Total(IdsIn(log), delta)
    decreases |log|
  {
    if log != [] {
      var last, front := log[|log| - 1], log[..|log| - 1];
      SumIsTotal(front, delta);
      var ids := IdsIn(log);
      assert ids - {last} == IdsIn(front);
      TotalWithout(ids, delta, last);
    }
  }

  lemma {:induction false} SumInParts(a: seq<string>, b: seq<string>, delta: string -> int64)
    ensures Sum(a + b, delta) == Sum(a, delta) + Sum(b, delta)
    decreases |b|
  {
    if b == [] {
      assert a + b == a;
    } else {
      var last, front := b[|b| - 1], b[..|b| - 1];
      SumInParts(a, front, delta);
      assert a + b == a + front + [last] && b == front + [last];
      SumOneMore(a + front, last, delta);
      SumOneMore(front, last, delta);
    }
  }

  /** Some of the ids, at least one and not all of them, come to nothing modulo 2^64. */
  ghost predicate Cancels(f: Feed, some: set<string>)
  {
    some != {} && some < f.ids && Total(some, f.delta) % TWO64 == 0
  }

  /** An owner and comma-free ids. */
  predicate FeedOk(f: Feed) { f.owner != 0 && forall id | id in f.ids :: PlainId(id) }

  lemma WrapIgnoresMultiples(m: int, n: int)
    ensures Wrap(m) == Wrap(m + n) <==> n % TWO64 == 0
  {}

  /** A recurrence is a set of ids that cancels: those applied since the stale read. */
  lemma RecurrenceCancels(f: Feed, t: Traffic, c: Client)
    requires AddInv(f, t) && Recurs(t, c)
    ensures Cancels(f, IdsIn(t.log[t.pending[c].seen..]))
  {
    hide AddStep, StandsFor, Wrap, Sum, Consistent, Cancels, DecodeEntry, EncodeEntry, ScoreIn, MemberOf, RingField;
    StaleSwapLandsIffMemberRecurs(f, t, c);
    LaterIdsCancel(f, t.log, t.pending[c].seen);
  }

  lemma LaterIdsCancel(f: Feed, log: seq<string>, seen: nat)
    requires NoRepeats(log) && 0 < seen < |log| && forall id | id in log :: id in f.ids
    requires Wrap(Sum(log[..seen], f.delta)) == Wrap(Sum(log, f.delta))
    ensures Cancels(f, IdsIn(log[seen..]))
  {
    hide Wrap, Sum, Total, NoRepeats, IdsIn;
    var later := log[seen..];
    assert log == log[..seen] + later;
    SumInParts(log[..seen], later, f.delta);
    WrapIgnoresMultiples(Sum(log[..seen], f.delta), Sum(later, f.delta));
    LaterIdsAreSome(log, seen, f.ids);
    SumIsTotal(later, f.delta);
  }

  lemma LaterIdsAreSome(log: seq<string>, seen: nat, all: set<string>)
    requires NoRepeats(log) && 0 < seen < |log| && forall id | id in log :: id in all
    ensures NoRepeats(log[seen..]) && IdsIn(log[seen..]) != {} && IdsIn(log[seen..]) < all
  {
    var later := log[seen..];
    assert later[0] in IdsIn(later) && log[0] in all && log[0] !in later;
  }

  lemma {:induction false} NothingCancelsNothingRecurs(f: Feed, t: Traffic, events: seq<Event>)
    requires AddInv(f, t) && AddLegalRun(f, t, events) && !exists some :: Cancels(f, some)
    ensures NoRecurrence(t, events)
    decreases |events|
  {
    hide SumInv, OnceInv, AddStep, AddFed, Recurs, Cancels;
    if events != [] {
      var e := events[0];
      if e.Swap? && Recurs(t, e.client) { RecurrenceCancels(f, t, e.client); }
      StepKeepsSum(f, t, e);
      StepKeepsOnce(f, t, e);
      NothingCancelsNothingRecurs(f, AddStep(t, e), events[1..]);
    }
  }

  // ---------- submits one after the other, all with one tie ----------

  const TIE: int64 := 7

  function TiedRead(f: Feed, c: Client, id: string): Event { Read(c, id, Score(f.owner, f.delta(id), TIE, [])) }

  /** Requests have counted once so far, all with the one tie and no brief. */
  ghost predicate Tied(f: Feed, t: Traffic)
  {
    && AddInv(f, t)
    && MemberOf(t.redis, f.owner) ==
         (if t.log == [] then "" else EncodeEntry(Score(f.owner, Wrap(Sum(t.log, f.delta)), TIE, [])))
  }

  lemma TiedReadKeeps(f: Feed, t: Traffic, c: Client, id: string)
    requires Tied(f, t) && FeedOk(f) && id in f.ids && id !in t.log
    ensures var read := AddStep(t, TiedRead(f, c, id));
      && AddLegal(f, t, TiedRead(f, c, id)) && Tied(f, read)
      && read == t.(pending := read.pending) && c in read.pending && read.pending - {c} == t.pending - {c}
      && read.pending[c].id == id && read.pending[c].seen == |t.log|
      && read.pending[c].score == Score(f.owner, f.delta(id), TIE, [])
      && read.pending[c].stored == MemberOf(t.redis, f.owner)
  {
    hide DecodeEntry, EncodeEntry, Consistent, StandsFor, RingContains, AppendRing, RingOf, Newest, Wrap, Sum;
    RingIsWindow(t.log, id);
    NewestIsPart(t.log);
    StepKeepsSum(f, t, TiedRead(f, c, id));
    StepKeepsOnce(f, t, TiedRead(f, c, id));
  }

  lemma TiedNext(f: Feed, log: seq<string>, id: string)
    ensures var stored := if log == [] then "" else EncodeEntry(Score(f.owner, Wrap(Sum(log, f.delta)), TIE, []));
      NextScore(stored, Score(f.owner, f.delta(id), TIE, []), Add)
      == Next(Score(f.owner, Wrap(Sum(log + [id], f.delta)), TIE, []), true)
  {
    hide EncodeEntry, DecodeEntry, NextScore, KeepBrief, Sum, Wrap, AddWrap;
    var current, score := Score(f.owner, Wrap(Sum(log, f.delta)), TIE, []), Score(f.owner, f.delta(id), TIE, []);
    SumOneMore(log, id, f.delta);
    AddWrapIsWrap(Sum(log, f.delta), f.delta(id));
    if log == [] {
      SumOfNothing(f.delta);
      AddWrapIsWrap(f.delta(id), 0);
      AddToNothing(score);
    } else {
      DecodeUndoesEncode(current);
      EntryNotEmpty(current);
      AddToStored(EncodeEntry(current), score);
      NoBriefToKeep(EncodeEntry(current), score, current);
    }
  }

  lemma SumOfNothing(delta: string -> int64)
    ensures Sum([], delta) == 0
  {}

  lemma NoBriefToKeep(stored: string, score: Score, current: Score)
    requires stored != "" && DecodeEntry(stored) == Ok(current) && score.brief == [] == current.brief
    ensures NextScore(stored, score, Add).Next? && NextScore(stored, score, Add).changed
    ensures NextScore(stored, score, Add).score.brief == []
  {
    hide DecodeEntry, EncodeEntry;
  }

  lemma LandedMember(t: Traffic, c: Client, next: Score)
    requires Consistent(t.redis) && c in t.pending
    requires MemberOf(t.redis, t.pending[c].score.owner) == t.pending[c].stored
    requires NextScore(t.pending[c].stored, t.pending[c].score, Add) == Next(next, true)
    ensures MemberOf(AddStep(t, Swap(c)).redis, t.pending[c].score.owner) == EncodeEntry(next)
  {
    hide DecodeEntry, EncodeEntry, Consistent, AppendRing, NextScore;
    var p := t.pending[c];
    SwapIsCompareAndSwap(t.redis, p.score.owner, p.stored, EncodeEntry(next), p.id, AppendRing(p.ring, p.id));
  }

  /** Read and swapped undisturbed, a new id is applied; the other clients stay where they are. */
  lemma TiedSubmit(f: Feed, t: Traffic, c: Client, id: string)
    requires Tied(f, t) && FeedOk(f) && id in f.ids && id !in t.log
    ensures var events := [TiedRead(f, c, id)] + ([Swap(c)] + []);
      var after := AddRun(t, events);
      && AddLegalRun(f, t, events) && Tied(f, after) && after.log == t.log + [id] && after.pending == t.pending - {c}
  {
    hide DecodeEntry, EncodeEntry, Consistent, StandsFor, AddStep, AddLegal, AddRun, AddLegalRun, AppendRing, RingOf,
         NextScore, Wrap, Sum, PendingOnce, NoRepeats;
    var e := TiedRead(f, c, id);
    var read := AddStep(t, e);
    TiedReadKeeps(f, t, c, id);
    SwapOutcome(f, read, c);
    SwapIsLegal(f, read, c);
    StepKeepsSum(f, read, Swap(c));
    StepKeepsOnce(f, read, Swap(c));
    TiedNext(f, t.log, id);
    LandedMember(read, c, Score(f.owner, Wrap(Sum(t.log + [id], f.delta)), TIE, []));
    RunOne(f, read, Swap(c), []);
    RunOne(f, AddStep(read, Swap(c)), Swap(c), []);
    RunOne(f, t, e, [Swap(c)] + []);
  }

  lemma SwapIsLegal(f: Feed, t: Traffic, c: Client)
    ensures AddLegal(f, t, Swap(c))
  {}

  lemma {:induction false} RunInParts(f: Feed, t: Traffic, a: seq<Event>, b: seq<Event>)
    ensures AddRun(t, a + b) == AddRun(AddRun(t, a), b)
    ensures AddLegalRun(f, t, a + b) <==> AddLegalRun(f, t, a) && AddLegalRun(f, AddRun(t, a), b)
    decreases |a|
  {
    hide AddStep, AddLegal;
    if a == [] {
      assert a + b == b;
    } else {
      assert (a + b)[1..] == a[1..] + b;
      RunInParts(f, AddStep(t, a[0]), a[1..], b);
    }
  }

  /** Any new ids, one after the other. */
  lemma {:induction false} TiedSubmits(f: Feed, t: Traffic, c: Client, ids: seq<string>) returns (events: seq<Event>)
    requires Tied(f, t) && FeedOk(f) && NoRepeats(ids)
    requires forall id | id in ids :: id in f.ids && id !in t.log
    ensures AddLegalRun(f, t, events)
    ensures var after := AddRun(t, events);
      && Tied(f, after) && after.log == t.log + ids
      && forall d | d in t.pending && d != c :: d in after.pending && after.pending[d] == t.pending[d]
    decreases |ids|
  {
    hide Tied, AddRun, AddLegalRun;
    if ids == [] {
      events := [];
      RunOne(f, t, Swap(c), []);
      assert t.log + ids == t.log;
    } else {
      assert ids[0] in ids;
      TiedSubmit(f, t, c, ids[0]);
      var first := [TiedRead(f, c, ids[0])] + ([Swap(c)] + []);
      var next := AddRun(t, first);
      var rest := TiedSubmits(f, next, c, ids[1..]);
      RunInParts(f, t, first, rest);
      events := first + rest;
      assert t.log + [ids[0]] + ids[1..] == t.log + ids;
    }
  }

  lemma QuietIsTied(f: Feed)
    requires f.owner != 0
    ensures Tied(f, QUIET)
  {
    hide SumInv, OnceInv;
    QuietInv(f);
  }

  /** Ids that cancel make a member recur: first is applied, a client reads for stale, all of
      some are applied, and the sum is again the one the client read. */
  lemma CancellingIdsRecur(f: Feed, first: string, some: seq<string>, stale: string) returns (events: seq<Event>)
    requires FeedOk(f) && first in f.ids && first !in some && some != [] && NoRepeats(some)
    requires (forall id | id in some :: id in f.ids) && Sum(some, f.delta) % TWO64 == 0
    requires stale in f.ids && stale != first
    ensures AddLegalRun(f, QUIET, events)
    ensures var t := AddRun(QUIET, events);
      && Tied(f, t) && t.log == [first] + some && 1 in t.pending
      && Recurs(t, 1) && t.pending[1].id == stale && t.pending[1].seen == 1
  {
    hide Tied, AddRun, AddLegalRun, AddLegal, AddStep, Recurs, Wrap, Sum, MemberOf;
    QuietIsTied(f);
    var e1 := TiedSubmits(f, QUIET, 0, [first]);
    var t1 := AddRun(QUIET, e1);
    assert [] + [first] == [first];
    TiedReadKeeps(f, t1, 1, stale);
    var read := TiedRead(f, 1, stale);
    var t2 := AddStep(t1, read);
    RunOne(f, t1, read, []);
    RunOne(f, t2, read, []);
    var e2 := [read] + [];
    var e3 := TiedSubmits(f, t2, 0, some);
    RunInParts(f, t1, e2, e3);
    RunInParts(f, QUIET, e1, e2 + e3);
    events := e1 + (e2 + e3);
    SumInParts([first], some, f.delta);
    WrapIgnoresMultiples(Sum([first], f.delta), Sum(some, f.delta));
    TiedMemberIsBack(f, t1, AddRun(t2, e3), 1);
  }

  lemma TiedMemberIsBack(f: Feed, before: Traffic, t: Traffic, c: Client)
    requires Tied(f, before) && Tied(f, t) && before.log != [] && |before.log| < |t.log|
    requires Wrap(Sum(before.log, f.delta)) == Wrap(Sum(t.log, f.delta))
    requires c in t.pending && t.pending[c].seen == |before.log| && t.pending[c].score.owner == f.owner
    requires t.pending[c].stored == MemberOf(before.redis, f.owner)
    ensures Recurs(t, c)
  {
    hide AddInv, EncodeEntry, Wrap, Sum;
  }

  lemma {:induction false} Listed(ids: set<string>) returns (q: seq<string>)
    ensures NoRepeats(q) && forall id :: id in q <==> id in ids
    decreases |ids|
  {
    if ids == {} {
      q := [];
    } else {
      var id :| id in ids;
      var rest := Listed(ids - {id});
      q := [id] + rest;
    }
  }

  lemma CancellingIdsCountTwice(f: Feed, some: set<string>) returns (events: seq<Event>)
    requires FeedOk(f) && Cancels(f, some)
    ensures AddLegalRun(f, QUIET, events) && !NoRepeats(AddRun(QUIET, events).log)
  {
    hide Tied, AddRun, AddLegalRun, AddLegal, AddStep, Recurs, Sum;
    var first :| first in f.ids && first !in some;
    var q := Listed(some);
    assert IdsIn(q) == some;
    SumIsTotal(q, f.delta);
    var before := CancellingIdsRecur(f, first, q, q[0]);
    var t := AddRun(QUIET, before);
    TiedIsInv(f, t);
    SwapLogs(f, t, 1);
    RepeatsAtTheEnd(t.log, q[0]);
    SwapIsLegal(f, t, 1);
    RunOne(f, t, Swap(1), []);
    RunOne(f, AddStep(t, Swap(1)), Swap(1), []);
    RunInParts(f, QUIET, before, [Swap(1)] + []);
    events := before + ([Swap(1)] + []);
  }

  lemma TiedIsInv(f: Feed, t: Traffic)
    requires Tied(f, t)
    ensures AddInv(f, t) && SumInv(f, t)
  {
    hide SumInv, OnceInv, EncodeEntry;
  }

  /** When Add is safe: all legal traffic of a feed counts every request once if and only if
      no proper part of its ids comes to nothing modulo 2^64. */
  lemma CountsOnceIffNothingCancels(f: Feed)
    requires FeedOk(f)
    ensures (forall events: seq<Event> | AddLegalRun(f, QUIET, events) :: NoRepeats(AddRun(QUIET, events).log))
            <==> !exists some :: Cancels(f, some)
  {
    hide AddLegalRun, AddRun, Cancels, NoRepeats;
    if some :| Cancels(f, some) {
      var events := CancellingIdsCountTwice(f, some);
    } else {
      forall events: seq<Event> | AddLegalRun(f, QUIET, events)
        ensures NoRepeats(AddRun(QUIET, events).log)
      {
        QuietInv(f);
        NothingCancelsNothingRecurs(f, QUIET, events);
        AddCountsEachRequestOnce(f, events);
      }
    }
  }

  // ---------- two feeds ----------

  lemma {:induction false} TotalIsBetween(ids: set<string>, all: set<string>, delta: string -> int64)
    requires ids <= all && forall id | id in all :: delta(id) > 0
    ensures 0 <= Total(ids, delta) <= Total(all, delta)
    ensures ids != {} ==> 0 < Total(ids, delta)
    decreases |all|
  {
    if all != {} {
      var id :| id in all;
      TotalWithout(all, delta, id);
      if id in ids {
        TotalWithout(ids, delta, id);
        TotalIsBetween(ids - {id}, all - {id}, delta);
      } else {
        TotalIsBetween(ids, all - {id}, delta);
      }
    }
  }

  /** Positive deltas that together stay in int64 never cancel, so every request counts once
      and the stored value is the plain sum. */
  lemma PositiveAddsCountOnce(f: Feed, events: seq<Event>)
    requires FeedOk(f) && (forall id | id in f.ids :: f.delta(id) > 0) && Total(f.ids, f.delta) < TWO63
    requires AddLegalRun(f, QUIET, events)
    ensures var t := AddRun(QUIET, events);
      && NoRepeats(t.log) && Consistent(t.redis)
      && (t.log != [] ==> f.owner in t.redis.members && Scores(t.redis)[f.owner].value == Sum(t.log, f.delta))
  {
    hide AddLegalRun, AddRun, Sum, Total, Consistent, Scores, SumInv, OnceInv;
    forall some: set<string>
      ensures !Cancels(f, some)
    {
      if some != {} && some < f.ids { TotalIsBetween(some, f.ids, f.delta); }
    }
    CountsOnceIffNothingCancels(f);
    QuietInv(f);
    LegalRunKeepsSum(f, QUIET, events);
    var t := AddRun(QUIET, events);
    SumInvMeaning(f, t);
    SumIsTotal(t.log, f.delta);
    LogIsFromFeed(f, t);
    TotalIsBetween(IdsIn(t.log), f.ids, f.delta);
    AddWrapIsWrap(Sum(t.log, f.delta), 0);
  }

  lemma {:induction false} LegalRunKeepsSum(f: Feed, t: Traffic, events: seq<Event>)
    requires SumInv(f, t) && AddLegalRun(f, t, events)
    ensures SumInv(f, AddRun(t, events))
    decreases |events|
  {
    hide SumInv, AddStep, AddFed;
    if events != [] {
      StepKeepsSum(f, t, events[0]);
      LegalRunKeepsSum(f, AddStep(t, events[0]), events[1..]);
    }
  }

  lemma LogIsFromFeed(f: Feed, t: Traffic)
    requires SumInv(f, t)
    ensures forall id | id in t.log :: id in f.ids
  {}

  /** What one owner's ids add: a and b cancel out. */
  function SampleDelta(id: string): int64 { if id == "a" then 5 else if id == "b" then -5 else 1 }

  const SAMPLE: Feed := Feed(1, {"l", "a", "b", "s"}, SampleDelta)

  lemma SampleCancels()
    ensures FeedOk(SAMPLE) && Cancels(SAMPLE, {"a", "b"}) && Sum(["a", "b"], SampleDelta) == 0
  {
    var q := ["a", "b"];
    assert q[..1] == ["a"] && q[..1][..0] == [];
    SumIsTotal(q, SampleDelta);
    assert IdsIn(q) == {"a", "b"};
    assert "l" in SAMPLE.ids && "l" !in {"a", "b"};
  }

  lemma SampleSum()
    ensures Wrap(Sum(["l", "a", "b", "s", "a"], SampleDelta)) == 7
  {
    hide Sum;
    SumOfNothing(SampleDelta);
    SumOneMore([], "l", SampleDelta);
    SumOneMore(["l"], "a", SampleDelta);
    SumOneMore(["l", "a"], "b", SampleDelta);
    SumOneMore(["l", "a", "b"], "s", SampleDelta);
    SumOneMore(["l", "a", "b", "s"], "a", SampleDelta);
    assert ["l", "a", "b", "s", "a"] == ["l", "a", "b", "s"] + ["a"];
    assert ["l", "a", "b", "s"] == ["l", "a", "b"] + ["s"] && ["l", "a", "b"] == ["l", "a"] + ["b"];
    assert ["l", "a"] == ["l"] + ["a"] && ["l"] == [] + ["l"];
  }

  /** With ties alike, l leaves 1; s (+1) reads; a (+5) and b (-5) are applied; the swap of s
      finds the 1 it read and overwrites the ring; a, redelivered, is applied again: 7 is
      stored for requests that come to 2. */
  lemma CancellingDeltasCountTwice() returns (events: seq<Event>)
    ensures Cancels(SAMPLE, {"a", "b"}) && AddLegalRun(SAMPLE, QUIET, events)
    ensures var t := AddRun(QUIET, events);
      && t.log == ["l", "a", "b", "s", "a"]
      && Consistent(t.redis) && 1 in t.redis.members && Scores(t.redis)[1].value == 7
  {
    hide Tied, AddRun, AddLegalRun, AddLegal, AddStep, Recurs, Wrap, Sum, SumInv, Consistent, Cancels, Total, FeedOk,
         MemberOf, Scores, SampleDelta;
    SampleCancels();
    var before := CancellingIdsRecur(SAMPLE, "l", ["a", "b"], "s");
    var t := AddRun(QUIET, before);
    assert t.log == ["l", "a", "b"];
    var tail := RedeliveredAgain(t);
    RunInParts(SAMPLE, QUIET, before, tail);
    events := before + tail;
    SumInvMeaning(SAMPLE, AddRun(t, tail));
    SampleSum();
  }

  /** After the recurrence the id a, applied since the stale read, is applied again. */
  lemma RedeliveredAgain(t: Traffic) returns (tail: seq<Event>)
    requires Tied(SAMPLE, t) && t.log == ["l", "a", "b"]
    requires Recurs(t, 1) && t.pending[1].id == "s" && t.pending[1].seen == 1
    ensures AddLegalRun(SAMPLE, t, tail) && SumInv(SAMPLE, AddRun(t, tail))
    ensures AddRun(t, tail).log == ["l", "a", "b", "s", "a"]
  {
    hide Tied, DecodeEntry, EncodeEntry, Consistent, StandsFor, AddStep, AppendRing, RingContains, RingOf, SumInv,
         AddRun, AddLegalRun;
    var swapped, read := AddStep(t, Swap(1)), TiedRead(SAMPLE, 1, "a");
    TiedIsInv(SAMPLE, t);
    SwapLogs(SAMPLE, t, 1);
    assert t.log[1..] == ["a", "b"];
    RecurrenceForgets(SAMPLE, t, 1, "a");
    StepKeepsSum(SAMPLE, t, Swap(1));
    StepKeepsSum(SAMPLE, swapped, read);
    StepKeepsSum(SAMPLE, AddStep(swapped, read), Swap(1));
    assert swapped.log == ["l", "a", "b", "s"] && "a" == swapped.log[1] && PlainId("a");
    assert swapped.(pending := swapped.pending - {1}) == swapped;
    AppliedIffNotInRing(SAMPLE, swapped, 1, "a", read.score);
    assert AddStep(AddStep(swapped, read), Swap(1)).log == ["l", "a", "b", "s", "a"];
    assert AddLegal(SAMPLE, swapped, read);
    RunOne(SAMPLE, AddStep(AddStep(swapped, read), Swap(1)), Swap(1), []);
    RunOne(SAMPLE, AddStep(swapped, read), Swap(1), []);
    RunOne(SAMPLE, swapped, read, [Swap(1)] + []);
    RunOne(SAMPLE, t, Swap(1), [read] + ([Swap(1)] + []));
    tail := [Swap(1)] + ([read] + ([Swap(1)] + []));
  }
}
