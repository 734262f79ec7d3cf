/** service/platform/redis_store.go and server_run.go: the pending index kept in step with the
    orders, and the retry loop that drains it a page at a time. */
module PlatformPending {
  import opened Clock
  import opened Text
  import opened Ordering
  import opened PlatformOrder

  const RETRY_BATCH: nat := 128
  const POISONED_RETRY_DELAY := 900 * NANOS

  /** A stored record; some cannot be decoded. */
  datatype Record = Readable(order: Order) | Malformed

  /** The order records, the sorted-set index over them, and the ids some attempt was claimed
      for, or found out of budget (history, not state). */
  datatype Queue = Queue(records: map<string, Record>, index: map<string, int>, tried: set<string>)

  /** pendingIndexEntry: where an order sits in the index, if it is in it at all. */
  function IndexScore(o: Order): Option<int>
  {
    if o.Terminal() then None
    else if o.nextAttemptAt > 0 then Some(o.nextAttemptAt)
    else if o.paidAt > 0 then Some(o.paidAt) else Some(o.createdAt)
  }

  function Reindex(index: map<string, int>, id: string, o: Order): map<string, int>
  {
    match IndexScore(o)
    case None => index - {id}
    case Some(score) => index[id := score]
  }

  /** The index agrees with every order that can be read, and names no blank id (no valid
      order has one, and nothing would ever take it out). */
  ghost predicate Agrees(q: Queue)
  {
    && (forall id | id in q.index :: TrimSpace(id) != "")
    && forall id | id in q.records && q.records[id].Readable? :: Listed(q.index, id, q.records[id].order)
  }

  predicate Listed(index: map<string, int>, id: string, o: Order)
  {
    match IndexScore(o)
    case None => id !in index
    case Some(score) => id in index && index[id] == score
  }

  /** One write of an order: the value and its index entry change together. */
  function Write(q: Queue, id: string, o: Order): Queue
  {
    q.(records := q.records[id := Readable(o)], index := Reindex(q.index, id, o))
  }

  lemma WriteKeepsAgreement(q: Queue, id: string, o: Order)
    requires Agrees(q) && TrimSpace(id) != ""
    ensures Agrees(Write(q, id, o))
  {
    hide TrimSpace;
    var after := Write(q, id, o);
    forall d | d in after.records && after.records[d].Readable?
      ensures Listed(after.index, d, after.records[d].order)
    {
      if d != id { assert Listed(q.index, d, q.records[d].order); }
    }
  }

  // ---------- the index and what is due ----------

  /** The time an order is listed under before its first attempt and after a reopening. */
  function ListedFrom(o: Order): int { if o.paidAt > 0 then o.paidAt else o.createdAt }

  /** The index lists an order as due exactly when it is Due, if and only if it is resolved, or
      has an attempt behind it, or its payment time has come. */
  lemma IndexTellsDueIff(o: Order, nowUnix: int)
    requires o.nextAttemptAt >= 0
    ensures (o.Due(nowUnix) <==> IndexScore(o).Some? && IndexScore(o).value <= nowUnix)
            <==> o.Terminal() || o.nextAttemptAt != 0 || ListedFrom(o) <= nowUnix
  {}

  /** So a due order whose payment time, which the provider supplies, lies ahead is on no page
      until then, however long the page. */
  lemma FuturePaymentIsOnNoPage(q: Queue, id: string, o: Order, nowUnix: int, limit: nat)
    requires Agrees(q) && id in q.records && q.records[id] == Readable(o) && !o.Terminal()
    requires o.nextAttemptAt == 0 && nowUnix < ListedFrom(o)
    ensures o.Due(nowUnix) && id !in DuePage(q.index, nowUnix, limit)
  {
    hide TrimSpace, DuePage;
    assert Listed(q.index, id, o);
    PageIsDue(q.index, nowUnix, limit);
  }

  lemma PageIsDue(index: map<string, int>, nowUnix: int, limit: nat)
    ensures forall id | id in DuePage(index, nowUnix, limit) :: id in index && index[id] <= nowUnix
  {
    hide DueSorted;
    var page, sorted := DuePage(index, nowUnix, limit), DueSorted(index, nowUnix);
    forall id | id in page
      ensures id in index && index[id] <= nowUnix
    {
      var i :| 0 <= i < |page| && page[i] == id;
      assert sorted[i] in sorted && sorted[i] in DueEntries(index, nowUnix);
    }
  }

  /** The order as a first callback records it at second 1, paid, it says, at second 100. */
  lemma PaidInTheFuture(o: Order)
    requires o == NewOrder(Purchase("o1", 1, "store", "gems", 100, "USD"), 100, NANOS, 3)
    ensures ValidOrder(o) && o.Due(1) && IndexScore(o) == Some(100)
    ensures forall limit: nat :: "o1" !in DuePage(Write(Queue(map[], map[], {}), "o1", o).index, 1, limit)
  {
    var q := Write(Queue(map[], map[], {}), "o1", o);
    WriteKeepsAgreement(Queue(map[], map[], {}), "o1", o);
    forall limit: nat
      ensures "o1" !in DuePage(q.index, 1, limit)
    {
      FuturePaymentIsOnNoPage(q, "o1", o, 1, limit);
    }
  }

  // ---------- a page of the index ----------

  function DueEntries(index: map<string, int>, nowUnix: int): set<(int, string)>
  {
    set id | id in index && index[id] <= nowUnix :: (index[id], id)
  }

  function DueSorted(index: map<string, int>, nowUnix: int): (sorted: seq<(int, string)>)
    ensures Enumerates(sorted, DueEntries(index, nowUnix)) && SortedBy(sorted, ScoredBefore)
  {
    ScoredBeforeIsStrictTotal(DueEntries(index, nowUnix));
    Sort(DueEntries(index, nowUnix), ScoredBefore)
  }

  function IdsOf(entries: seq<(int, string)>): (ids: seq<string>)
    ensures |ids| == |entries| && forall i | 0 <= i < |ids| :: ids[i] == entries[i].1
  {
    seq(|entries|, i requires 0 <= i < |entries| => entries[i].1)
  }

  /** The due entries, oldest first, at most limit of them. */
  function DuePage(index: map<string, int>, nowUnix: int, limit: nat): (page: seq<string>)
    ensures |page| <= limit
  {
    var ids := IdsOf(DueSorted(index, nowUnix));
    if |ids| < limit then ids else ids[..limit]
  }

  // ---------- a visit ----------

  /** What the loop does first with one id of its page: nothing for a blank one, retiring an
      entry without a record, pushing back one that cannot be decoded, or else claiming an
      attempt. It says whether the deliverer is called. */
  function ClaimVisit(q: Queue, id: string, now: int, backoff: int): (Queue, bool)
  {
    if TrimSpace(id) == "" then (q, false)
    else if id !in q.records then (q.(index := q.index - {id}), false)
    else match q.records[id]
      case Malformed =>
        (if id in q.index then q.(index := q.index[id := Unix(now + POISONED_RETRY_DELAY)]) else q, false)
      case Readable(o) =>
        var (after, outcome) := Claim(o, now, backoff);
        if !Writes(outcome) then (q, false)
        else (Write(q, id, after).(tried := q.tried + {id}), outcome.Claimed?)
  }

  /** Recording the answer of an attempt claimed at the given second, on the record as it is
      found then. */
  function RecordVisit(q: Queue, id: string, claimedAt: int, answer: Answer): Queue
  {
    if id !in q.records || q.records[id].Malformed? || q.records[id].order.state == Delivered then q
    else Write(q, id, Recorded(Some(q.records[id].order), answer, claimedAt).0.value)
  }

  /** A whole visit with nobody else in between. */
  function Visit(q: Queue, id: string, now: int, backoff: int, answer: Answer): Queue
  {
    var (claimed, called) := ClaimVisit(q, id, now, backoff);
    if called then RecordVisit(claimed, id, Unix(now), answer) else claimed
  }

  /** Such a visit of a readable order is a whole attempt on it. */
  lemma VisitIsAnAttempt(q: Queue, id: string, now: int, backoff: int, answer: Answer)
    requires TrimSpace(id) != "" && id in q.records && q.records[id].Readable?
    ensures var o, after := q.records[id].order, Visit(q, id, now, backoff, answer);
      && after.records == q.records[id := Readable(Attempt(o, now, backoff, answer).0)]
      && (Writes(Claim(o, now, backoff).1) ==>
            after.index == Reindex(q.index, id, Attempt(o, now, backoff, answer).0) && after.tried == q.tried + {id})
      && (!Writes(Claim(o, now, backoff).1) ==> after == q)
  {
    hide TrimSpace, Claim;
    NotWrittenIsSame(q.records[id].order, now, backoff);
  }

  lemma NotWrittenIsSame(o: Order, now: int, backoff: int)
    ensures !Writes(Claim(o, now, backoff).1) ==> Claim(o, now, backoff).0 == o
    ensures Claim(o, now, backoff).1.Claimed? ==> Claim(o, now, backoff).0.state == Reserved
  {}

  /** What becomes of an entry that no order can be read for: a blank one stays, one without a
      record is retired, and one whose record cannot be decoded keeps the record and stands 15
      minutes later. The deliverer is not called. */
  lemma UnreadableVisit(q: Queue, id: string, now: int, backoff: int)
    requires TrimSpace(id) == "" || id !in q.records || q.records[id].Malformed?
    ensures var (after, called) := ClaimVisit(q, id, now, backoff);
      && !called && after.records == q.records && after.tried == q.tried
      && (TrimSpace(id) == "" ==> after == q)
      && (TrimSpace(id) != "" && id !in q.records ==> after.index == q.index - {id})
      && (TrimSpace(id) != "" && id in q.records && id in q.index ==> after.index == q.index[id := Unix(now) + 15 * 60])
      && (TrimSpace(id) != "" && id in q.records && id !in q.index ==> after == q)
  {
    hide TrimSpace, Claim;
  }

  /** A claim of a readable order writes order and entry together, and calls the deliverer
      exactly when it took an attempt from the budget. */
  lemma ReadableVisit(q: Queue, id: string, now: int, backoff: int)
    requires TrimSpace(id) != "" && id in q.records && q.records[id].Readable?
    ensures var (after, called) := ClaimVisit(q, id, now, backoff);
      var o := q.records[id].order;
      && (called <==> o.state == Reserved && (o.nextAttemptAt == 0 || o.nextAttemptAt <= Unix(now))
                      && o.attempts < o.maxAttempts)
      && after.records == q.records[id := after.records[id]] && after.records[id].Readable?
      && (called ==>
            && after.records[id].order.attempts == o.attempts + 1 && id in after.tried
            && Listed(after.index, id, after.records[id].order))
      && (!called && o.state == Reserved && o.nextAttemptAt == 0 ==>
            after.records[id].order.state == Exhausted && id !in after.index && id in after.tried)
  {
    hide TrimSpace;
  }

  /** A late answer is recorded on the order that is there then, and nowhere else. */
  lemma LateAnswer(q: Queue, id: string, claimedAt: int, answer: Answer)
    ensures var after := RecordVisit(q, id, claimedAt, answer);
      && after.tried == q.tried
      && (id !in q.records || q.records[id].Malformed? || q.records[id].order.state == Delivered ==> after == q)
      && (id in q.records && q.records[id].Readable? && q.records[id].order.state != Delivered ==>
            && id in after.records && after.records == q.records[id := after.records[id]]
            && after.records[id].Readable? && Listed(after.index, id, after.records[id].order)
            && (answer.Granted? ==> after.records[id].order.state == Delivered && id !in after.index)
            && (answer.Refused? ==>
                  && after.records[id].order.attempts == q.records[id].order.attempts
                  && after.records[id].order.lastError == Truncate(answer.cause, MAX_ERROR_BYTES)
                  && (q.records[id].order.attempts >= q.records[id].order.maxAttempts ==> id !in after.index)))
  {
    hide Truncate;
  }

  /** The outcomes of a claim that change the order; the others leave record and index alone. */
  predicate Writes(outcome: ClaimOutcome) { outcome.Claimed? || outcome.JustExhausted? }

  class PendingService {
    var queue: Queue
    const backoff: int

    constructor (backoff: int)
      ensures queue == Queue(map[], map[], {}) && this.backoff == backoff
    {
      queue := Queue(map[], map[], {});
      this.backoff := backoff;
    }

    /** One pass of the retry loop; visits gives the clock and the deliverer's answer met at
        each entry of the page. */
    method RetryPendingOnce(now: int, visits: seq<(int, Answer)>) returns (page: seq<string>)
      requires |visits| == RETRY_BATCH
      modifies this
      ensures page == DuePage(old(queue).index, Unix(now), RETRY_BATCH)
      ensures queue == VisitAll(old(queue), page, visits[..|page|], backoff)
    {
      hide DuePage, Claim, RecordVisit, Write;
      page := DuePage(queue.index, Unix(now), RETRY_BATCH);
      ghost var goal := VisitAll(queue, page, visits[..|page|], backoff);
      var i := 0;
      while i < |page|
        invariant 0 <= i <= |page|
        invariant VisitAll(queue, page[i..], visits[i..|page|], backoff) == goal
      {
        var id, at, answer := page[i], visits[i].0, visits[i].1;
        assert visits[i..|page|][1..] == visits[i + 1..|page|] && page[i..][1..] == page[i + 1..];
        if TrimSpace(id) == "" {
          assert Visit(queue, id, at, backoff, answer) == queue;
        } else if id !in queue.records {
          queue := queue.(index := queue.index - {id});
        } else if queue.records[id].Malformed? {
          if id in queue.index {
            queue := queue.(index := queue.index[id := Unix(at + POISONED_RETRY_DELAY)]);
          }
        } else {
          var (claimed, outcome) := Claim(queue.records[id].order, at, backoff);
          if Writes(outcome) {
            queue := Write(queue, id, claimed).(tried := queue.tried + {id});
            if outcome.Claimed? { queue := RecordVisit(queue, id, Unix(at), answer); }
          }
        }
        i := i + 1;
      }
    }

    /** The server's loop: one pass a tick, until it is stopped. */
    method Serve(ticks: seq<Tick>)
      requires WholeTicks(ticks)
      modifies this
      ensures queue == AfterTicks(old(queue), ticks, backoff)
    {
      var i := 0;
      while i < |ticks|
        invariant 0 <= i <= |ticks|
        invariant AfterTicks(queue, ticks[i..], backoff) == AfterTicks(old(queue), ticks, backoff)
      {
        assert ticks[i] in ticks && ticks[i..][1..] == ticks[i + 1..];
        var page := RetryPendingOnce(ticks[i].now, ticks[i].visits);
        i := i + 1;
      }
    }
  }

  /** The visits of a page, one after the other. */
  function VisitAll(q: Queue, page: seq<string>, visits: seq<(int, Answer)>, backoff: int): Queue
    requires |visits| == |page|
    decreases |page|
  {
    if page == [] then q
    else VisitAll(Visit(q, page[0], visits[0].0, backoff, visits[0].1), page[1..], visits[1..], backoff)
  }

  // ---------- entries ahead of an order ----------

  /** The ids whose entries stand before x's. */
  ghost function Ahead(index: map<string, int>, x: string): set<string>
    requires x in index
  {
    set id | id in index && ScoredBefore((index[id], id), (index[x], x))
  }

  /** x is a readable order, unresolved and listed for the given second. */
  predicate Waiting(q: Queue, x: string, o: Order, dueAt: int)
  {
    && x in q.records && q.records[x] == Readable(o) && !o.Terminal()
    && IndexScore(o) == Some(dueAt)
  }

  lemma WaitingIsListed(q: Queue, x: string, o: Order, dueAt: int)
    requires Agrees(q) && Waiting(q, x, o, dueAt)
    ensures x in q.index && q.index[x] == dueAt
  {
    assert Listed(q.index, x, o);
  }

  /** After a claim that changes it, an order has left the index or stands later than now. */
  lemma ClaimMovesOn(o: Order, now: int, backoff: int)
    requires now >= 0 && backoff >= NANOS && Writes(Claim(o, now, backoff).1)
    ensures var after := Claim(o, now, backoff).0;
      IndexScore(after).Some? ==> IndexScore(after).value > Unix(now)
  {
    var (claimed, outcome) := Claim(o, now, backoff);
    if outcome.Claimed? {
      assert Backoff(backoff, o.attempts + 1) >= NANOS by { BackoffAtLeastBase(backoff, o.attempts + 1); }
      assert claimed.nextAttemptAt >= Unix(now + NANOS) == Unix(now) + 1;
      assert Unix(now) >= 0;
    }
  }

  /** Recording an answer takes an order out of the index or leaves its place there. */
  lemma RecordKeepsItsPlace(o: Order, answer: Answer, claimedAt: int)
    ensures var after := Recorded(Some(o), answer, claimedAt).0;
      after.Some? && (IndexScore(after.value).None? || IndexScore(after.value) == IndexScore(o))
  {}

  /** So after a whole attempt, undisturbed, it has left the index or stands later than now. */
  lemma AttemptMovesOn(o: Order, now: int, backoff: int, answer: Answer)
    requires now >= 0 && backoff >= NANOS
    ensures var after := Attempt(o, now, backoff, answer).0;
      IndexScore(after).Some? ==> IndexScore(after).value > Unix(now)
  {
    if Writes(Claim(o, now, backoff).1) { ClaimMovesOn(o, now, backoff); }
    RecordKeepsItsPlace(Claim(o, now, backoff).0, answer, Unix(now));
  }

  lemma BackoffAtLeastBase(base: int, attempt: int)
    requires base >= 0
    ensures Backoff(base, attempt) >= base
  {
    var least := if attempt < 1 then 1 else attempt;
    var m := if least > MAX_BACKOFF_MULTIPLIER then MAX_BACKOFF_MULTIPLIER else least;
    assert base * m >= base * 1;
  }

  /** An order that a claim leaves unchanged is out of the index or stands later than now. */
  lemma UnwrittenIsNotDue(q: Queue, id: string, now: int, backoff: int)
    requires Agrees(q) && 0 <= now && id in q.records && q.records[id].Readable?
    requires !Writes(Claim(q.records[id].order, now, backoff).1)
    ensures id in q.index ==> q.index[id] > Unix(now)
  {
    hide TrimSpace;
    var o := q.records[id].order;
    assert Listed(q.index, id, o);
  }

  /** From its claim on, a visited entry is no longer ahead of a waiting order, and nothing
      else moves ahead. */
  lemma VisitClearsTheWay(q: Queue, id: string, now: int, backoff: int, x: string, o: Order, dueAt: int)
    requires Agrees(q) && Waiting(q, x, o, dueAt) && id != x
    requires 0 <= now && dueAt <= Unix(now) && backoff >= NANOS
    ensures var (after, called) := ClaimVisit(q, id, now, backoff);
      && Agrees(after) && Waiting(after, x, o, dueAt) && q.tried <= after.tried
      && (called ==> TrimSpace(id) != "" && id in after.tried)
      && x in q.index && x in after.index
      && Ahead(after.index, x) <= Ahead(q.index, x) - {id}
  {
    hide Claim, TrimSpace;
    WaitingIsListed(q, x, o, dueAt);
    var after := ClaimVisit(q, id, now, backoff).0;
    if TrimSpace(id) != "" && id in q.records && q.records[id].Readable? {
      if Writes(Claim(q.records[id].order, now, backoff).1) {
        ClaimMovesOn(q.records[id].order, now, backoff);
        WriteKeepsAgreement(q, id, Claim(q.records[id].order, now, backoff).0);
      } else {
        UnwrittenIsNotDue(q, id, now, backoff);
      }
    } else {
      assert Agrees(after) by {
        forall d | d in after.records && after.records[d].Readable?
          ensures Listed(after.index, d, after.records[d].order)
        {
          assert Listed(q.index, d, q.records[d].order);
        }
      }
      assert Unix(now + POISONED_RETRY_DELAY) == Unix(now) + 900;
    }
  }

  /** Recording an answer, however late and on whatever others made of the record, puts
      nothing ahead of a waiting order. */
  lemma RecordKeepsTheWay(q: Queue, id: string, claimedAt: int, answer: Answer, x: string, o: Order, dueAt: int)
    requires Agrees(q) && Waiting(q, x, o, dueAt) && id != x && TrimSpace(id) != ""
    ensures var after := RecordVisit(q, id, claimedAt, answer);
      && Agrees(after) && Waiting(after, x, o, dueAt) && q.tried == after.tried
      && x in q.index && x in after.index
      && Ahead(after.index, x) <= Ahead(q.index, x)
  {
    hide TrimSpace, Recorded;
    WaitingIsListed(q, x, o, dueAt);
    if id in q.records && q.records[id].Readable? {
      assert Listed(q.index, id, q.records[id].order);
      RecordKeepsItsPlace(q.records[id].order, answer, claimedAt);
      WriteKeepsAgreement(q, id, Recorded(Some(q.records[id].order), answer, claimedAt).0.value);
    }
  }

  /** An order whose index time has come is due. */
  lemma ListedInTimeIsDue(o: Order, now: int)
    requires 0 <= now && !o.Terminal() && IndexScore(o).value <= Unix(now)
    ensures o.Due(Unix(now))
  {}

  /** A waiting order that is visited when due has an attempt claimed for it, or is found out
      of budget. */
  lemma VisitTries(q: Queue, now: int, backoff: int, x: string, o: Order, dueAt: int)
    requires Agrees(q) && Waiting(q, x, o, dueAt) && o.Due(Unix(now))
    ensures x in ClaimVisit(q, x, now, backoff).0.tried
  {
    WaitingIsListed(q, x, o, dueAt);
  }

  // ---------- a pass among other actors ----------

  /** During a pass the loop claims an attempt for its next entry, or records the answer of
      the one it has under way, or another process changes the store. */
  datatype Event = ClaimNext(now: int) | RecordAnswer(answer: Answer) | Other(after: Queue)

  /** An attempt of the loop that is with the deliverer. */
  datatype Flight = Flight(id: string, claimedAt: int)

  datatype Progress = Progress(queue: Queue, rest: seq<string>, flight: Option<Flight>)

  /** The loop takes one entry at a time. */
  function StepPass(p: Progress, e: Event, backoff: int): Progress
  {
    match e
    case Other(after) => p.(queue := after)
    case ClaimNext(now) =>
      if p.rest == [] || p.flight.Some? then p
      else
        var (after, called) := ClaimVisit(p.queue, p.rest[0], now, backoff);
        Progress(after, p.rest[1..], if called then Some(Flight(p.rest[0], Unix(now))) else None)
    case RecordAnswer(answer) =>
      if p.flight.None? then p
      else Progress(RecordVisit(p.queue, p.flight.value.id, p.flight.value.claimedAt, answer), p.rest, None)
  }

  function RunPass(p: Progress, events: seq<Event>, backoff: int): Progress
    decreases |events|
  {
    if events == [] then p else RunPass(StepPass(p, events[0], backoff), events[1..], backoff)
  }

  /** What the others may do: keep the index in step and put nothing new ahead of x; x itself
      they may attempt, or leave alone. */
  ghost predicate PutsNothingAhead(before: Queue, after: Queue, x: string, o: Order, dueAt: int)
    requires Agrees(before) && Waiting(before, x, o, dueAt)
  {
    && Agrees(after) && before.tried <= after.tried
    && (x in after.tried || Waiting(after, x, o, dueAt))
    && (Waiting(after, x, o, dueAt) ==>
         (WaitingIsListed(before, x, o, dueAt);
          WaitingIsListed(after, x, o, dueAt);
          Ahead(after.index, x) <= Ahead(before.index, x)))
  }

  ghost predicate UntriedAt(q: Queue, x: string, o: Order, dueAt: int)
  {
    x !in q.tried && Agrees(q) && Waiting(q, x, o, dueAt)
  }

  /** The attempt under way was claimed, for an order with an id. */
  predicate FlightOk(p: Progress)
  {
    p.flight.Some? ==> TrimSpace(p.flight.value.id) != "" && p.flight.value.id in p.queue.tried
  }

  /** History only grows, claims happen once x is due, and nobody puts anything ahead of x
      while it waits untried. */
  ghost predicate FairStep(p: Progress, e: Event, x: string, o: Order, dueAt: int)
  {
    match e
    case ClaimNext(now) => 0 <= now && dueAt <= Unix(now)
    case RecordAnswer(_) => true
    case Other(after) =>
      && p.queue.tried <= after.tried
      && (UntriedAt(p.queue, x, o, dueAt) ==> PutsNothingAhead(p.queue, after, x, o, dueAt))
  }

  ghost predicate FairPass(p: Progress, events: seq<Event>, backoff: int, x: string, o: Order, dueAt: int)
    decreases |events|
  {
    events == [] ||
    (FairStep(p, events[0], x, o, dueAt)
     && FairPass(StepPass(p, events[0], backoff), events[1..], backoff, x, o, dueAt))
  }

  lemma {:induction false} TriedStays(p: Progress, events: seq<Event>, backoff: int, x: string, o: Order, dueAt: int)
    requires FairPass(p, events, backoff, x, o, dueAt)
    ensures p.queue.tried <= RunPass(p, events, backoff).queue.tried
    decreases |events|
  {
    if events != [] { TriedStays(StepPass(p, events[0], backoff), events[1..], backoff, x, o, dueAt); }
  }

  lemma StepProgress(p: Progress, e: Event, backoff: int, x: string, o: Order, dueAt: int)
    requires backoff >= NANOS && UntriedAt(p.queue, x, o, dueAt) && FlightOk(p)
    requires FairStep(p, e, x, o, dueAt)
    ensures var next := StepPass(p, e, backoff);
      var after := next.queue;
      x in after.tried ||
      (&& UntriedAt(after, x, o, dueAt) && FlightOk(next) && x in p.queue.index && x in after.index
       && Ahead(after.index, x) <= Ahead(p.queue.index, x)
       && (next.rest == p.rest
           || (p.rest != [] && next.rest == p.rest[1..] && p.rest[0] != x && p.rest[0] !in Ahead(after.index, x))))
  {
    hide ClaimVisit, RecordVisit, Ahead, TrimSpace;
    WaitingIsListed(p.queue, x, o, dueAt);
    match e {
      case Other(after) =>
        if Waiting(after, x, o, dueAt) { WaitingIsListed(after, x, o, dueAt); }
      case ClaimNext(now) =>
        if p.rest != [] && p.flight.None? {
          if p.rest[0] == x {
            ListedInTimeIsDue(o, now);
            VisitTries(p.queue, now, backoff, x, o, dueAt);
          } else {
            VisitClearsTheWay(p.queue, p.rest[0], now, backoff, x, o, dueAt);
          }
        }
      case RecordAnswer(answer) =>
        if p.flight.Some? {
          RecordKeepsTheWay(p.queue, p.flight.value.id, p.flight.value.claimedAt, answer, x, o, dueAt);
        }
    }
  }

  /** Over a pass: x is tried, or what is ahead of it has shrunk by the whole page. */
  lemma {:induction false} PassProgress(p: Progress, events: seq<Event>, backoff: int, x: string, o: Order, dueAt: int)
    requires backoff >= NANOS && UntriedAt(p.queue, x, o, dueAt) && FlightOk(p)
    requires FairPass(p, events, backoff, x, o, dueAt)
    requires RunPass(p, events, backoff).rest == []
    ensures var after := RunPass(p, events, backoff).queue;
      x in after.tried ||
      (&& UntriedAt(after, x, o, dueAt) && x in p.queue.index && x in after.index && x !in p.rest
       && Ahead(after.index, x) <= Ahead(p.queue.index, x) - (set id | id in p.rest))
    decreases |events|
  {
    hide StepPass, Ahead, Waiting, Agrees, PutsNothingAhead, FlightOk, FairStep;
    UntriedIsListed(p.queue, x, o, dueAt);
    if events != [] {
      var e := events[0];
      var next := StepPass(p, e, backoff);
      StepProgress(p, e, backoff, x, o, dueAt);
      if x in next.queue.tried {
        TriedStays(next, events[1..], backoff, x, o, dueAt);
      } else {
        PassProgress(next, events[1..], backoff, x, o, dueAt);
        if next.rest != p.rest { assert p.rest == [p.rest[0]] + next.rest; }
      }
    }
  }

  lemma UntriedIsListed(q: Queue, x: string, o: Order, dueAt: int)
    requires UntriedAt(q, x, o, dueAt)
    ensures x in q.index && q.index[x] == dueAt
  {
    WaitingIsListed(q, x, o, dueAt);
  }

  // ---------- how the page relates to what is ahead ----------

  /** The first page holds x when fewer than a batch stand ahead of it, and otherwise is
      a full batch of entries ahead of it. */
  lemma PageReaches(index: map<string, int>, x: string, nowUnix: int, batch: nat)
    requires x in index && index[x] <= nowUnix
    ensures var page, ahead := DuePage(index, nowUnix, batch), Ahead(index, x);
      && (|ahead| < batch ==> x in page)
      && (|ahead| >= batch ==> |set id | id in page| == batch && forall id | id in page :: id in ahead)
  {
    hide Ahead, DueSorted;
    var sorted := DueSorted(index, nowUnix);
    var at := AheadIsPosition(index, x, nowUnix);
    if at < batch {
      assert DuePage(index, nowUnix, batch)[at] == x;
    } else {
      FullPage(index, x, nowUnix, DuePage(index, nowUnix, batch), at);
    }
  }

  /** An entry's place among the due ones is the number of entries ahead of it. */
  lemma AheadIsPosition(index: map<string, int>, x: string, nowUnix: int) returns (at: nat)
    requires x in index && index[x] <= nowUnix
    ensures at == |Ahead(index, x)| < |DueSorted(index, nowUnix)|
    ensures DueSorted(index, nowUnix)[at] == (index[x], x)
  {
    hide DueSorted;
    var due, sorted, own := DueEntries(index, nowUnix), DueSorted(index, nowUnix), (index[x], x);
    assert own in due;
    at :| 0 <= at < |sorted| && sorted[at] == own;
    ScoredBeforeIsStrictTotal(due);
    Position(sorted, due, ScoredBefore, at);
    AheadSize(index, x, nowUnix, set p | p in sorted[..at]);
  }

  lemma AheadSize(index: map<string, int>, x: string, nowUnix: int, before: set<(int, string)>)
    requires x in index && index[x] <= nowUnix
    requires forall p :: p in before <==> p in DueEntries(index, nowUnix) && ScoredBefore(p, (index[x], x))
    ensures |Ahead(index, x)| == |before|
  {
    PairsSize(index, Ahead(index, x), before);
  }

  lemma FullPage(index: map<string, int>, x: string, nowUnix: int, page: seq<string>, at: nat)
    requires x in index && |page| <= at < |DueSorted(index, nowUnix)|
    requires DueSorted(index, nowUnix)[at] == (index[x], x)
    requires forall i | 0 <= i < |page| :: page[i] == DueSorted(index, nowUnix)[i].1
    ensures |set id | id in page| == |page| && forall id | id in page :: id in Ahead(index, x)
  {
    hide DueSorted, ScoredBefore;
    var due, sorted := DueEntries(index, nowUnix), DueSorted(index, nowUnix);
    ScoredBeforeIsStrictTotal(due);
    SortedHasNoRepeats(sorted, due, ScoredBefore);
    forall i, j | 0 <= i < j < |page|
      ensures page[i] != page[j]
    {
      assert sorted[i] in sorted && sorted[j] in sorted && sorted[i] != sorted[j];
    }
    SetOfSize(page);
    forall id | id in page
      ensures id in Ahead(index, x)
    {
      var i :| 0 <= i < |page| && page[i] == id;
      assert sorted[i] in sorted && ScoredBefore(sorted[i], sorted[at]);
    }
  }

  // ---------- passes ----------

  /** One tick: when the page was read, and everything that happened until the next tick. */
  datatype Pass = Pass(readAt: int, events: seq<Event>)

  function Open(q: Queue, readAt: int): Progress { Progress(q, DuePage(q.index, Unix(readAt), RETRY_BATCH), None) }

  function RunPasses(q: Queue, passes: seq<Pass>, backoff: int): Queue
    decreases |passes|
  {
    if passes == [] then q
    else RunPasses(RunPass(Open(q, passes[0].readAt), passes[0].events, backoff).queue, passes[1..], backoff)
  }

  /** Every pass visits its whole page, reads it once x is due, and is fair to x. */
  ghost predicate FairPasses(q: Queue, passes: seq<Pass>, backoff: int, x: string, o: Order, dueAt: int)
    decreases |passes|
  {
    passes == [] ||
    (var p := Open(q, passes[0].readAt);
     && dueAt <= Unix(passes[0].readAt)
     && RunPass(p, passes[0].events, backoff).rest == []
     && FairPass(p, passes[0].events, backoff, x, o, dueAt)
     && FairPasses(RunPass(p, passes[0].events, backoff).queue, passes[1..], backoff, x, o, dueAt))
  }

  lemma {:induction false} TriedStaysOverPasses(q: Queue, passes: seq<Pass>, backoff: int, x: string, o: Order,
                                                dueAt: int)
    requires FairPasses(q, passes, backoff, x, o, dueAt)
    ensures q.tried <= RunPasses(q, passes, backoff).tried
    decreases |passes|
  {
    if passes != [] {
      var p := Open(q, passes[0].readAt);
      TriedStays(p, passes[0].events, backoff, x, o, dueAt);
      TriedStaysOverPasses(RunPass(p, passes[0].events, backoff).queue, passes[1..], backoff, x, o, dueAt);
    }
  }

  /** A due order with k due entries ahead of it is attempted within floor(k / 128) + 1 passes,
      whatever the other entries are: failing orders re-enter behind it, finished ones leave,
      entries without a record are retired and undecodable ones pushed back. */
  lemma {:induction false} AttemptedWithin(q: Queue, passes: seq<Pass>, backoff: int, x: string, o: Order, dueAt: int)
    requires backoff >= NANOS && UntriedAt(q, x, o, dueAt) && x in q.index
    requires FairPasses(q, passes, backoff, x, o, dueAt)
    requires |passes| > |Ahead(q.index, x)| / RETRY_BATCH
    ensures x in RunPasses(q, passes, backoff).tried
    decreases |passes|
  {
    var pass := passes[0];
    var p := Open(q, pass.readAt);
    var after := RunPass(p, pass.events, backoff).queue;
    UntriedIsListed(q, x, o, dueAt);
    PageReaches(q.index, x, Unix(pass.readAt), RETRY_BATCH);
    PassProgress(p, pass.events, backoff, x, o, dueAt);
    if x in after.tried {
      TriedStaysOverPasses(after, passes[1..], backoff, x, o, dueAt);
    } else {
      var ahead, page := Ahead(q.index, x), set id | id in p.rest;
      Shrinks(Ahead(after.index, x), ahead, page);
      AttemptedWithin(after, passes[1..], backoff, x, o, dueAt);
    }
  }

  lemma Shrinks(after: set<string>, before: set<string>, page: set<string>)
    requires after <= before - page && page <= before
    ensures |after| <= |before| - |page|
  {
    assert before == (before - page) + page;
    SubsetSize(after, before - page);
  }

  // ---------- a pass with nobody else at work ----------

  /** Each visit is a claim and, where there is anything to record, a record. */
  function Visits(visits: seq<(int, Answer)>): seq<Event>
  {
    if visits == [] then []
    else [ClaimNext(visits[0].0)] + ([RecordAnswer(visits[0].1)] + Visits(visits[1..]))
  }

  lemma TwoSteps(p: Progress, e: Event, d: Event, rest: seq<Event>, backoff: int)
    ensures RunPass(p, [e] + ([d] + rest), backoff)
            == RunPass(StepPass(StepPass(p, e, backoff), d, backoff), rest, backoff)
    ensures forall x, o, dueAt :: FairPass(p, [e] + ([d] + rest), backoff, x, o, dueAt) <==>
      && FairStep(p, e, x, o, dueAt) && FairStep(StepPass(p, e, backoff), d, x, o, dueAt)
      && FairPass(StepPass(StepPass(p, e, backoff), d, backoff), rest, backoff, x, o, dueAt)
  {
    hide StepPass, FairStep;
    assert ([e] + ([d] + rest))[1..] == [d] + rest && ([d] + rest)[1..] == rest;
  }

  /** The loop over a page is the run of its visits. */
  lemma {:induction false} VisitsAreAPass(p: Progress, visits: seq<(int, Answer)>, backoff: int)
    requires |visits| == |p.rest| && p.flight == None
    ensures RunPass(p, Visits(visits), backoff) == Progress(VisitAll(p.queue, p.rest, visits, backoff), [], None)
    decreases |visits|
  {
    hide ClaimVisit, RecordVisit;
    if visits != [] {
      var claim, record := ClaimNext(visits[0].0), RecordAnswer(visits[0].1);
      TwoSteps(p, claim, record, Visits(visits[1..]), backoff);
      VisitsAreAPass(StepPass(StepPass(p, claim, backoff), record, backoff), visits[1..], backoff);
    }
  }

  /** Alone, a pass is fair to any order whose index time has come when it runs. */
  lemma {:induction false} VisitsAreFair(p: Progress, visits: seq<(int, Answer)>, backoff: int, x: string, o: Order,
                                         dueAt: int)
    requires forall v | v in visits :: 0 <= v.0 && dueAt <= Unix(v.0)
    ensures FairPass(p, Visits(visits), backoff, x, o, dueAt)
    decreases |visits|
  {
    hide StepPass;
    if visits != [] {
      assert visits[0] in visits;
      var claim, record := ClaimNext(visits[0].0), RecordAnswer(visits[0].1);
      TwoSteps(p, claim, record, Visits(visits[1..]), backoff);
      VisitsAreFair(StepPass(StepPass(p, claim, backoff), record, backoff), visits[1..], backoff, x, o, dueAt);
    }
  }

  // ---------- the loop, repeated ----------

  /** One tick of the retry loop: when its page is read, and what its visits meet. */
  datatype Tick = Tick(now: int, visits: seq<(int, Answer)>)

  predicate WholeTicks(ticks: seq<Tick>) { forall t | t in ticks :: |t.visits| == RETRY_BATCH }

  function AfterTick(q: Queue, t: Tick, backoff: int): Queue
    requires |t.visits| == RETRY_BATCH
  {
    var page := DuePage(q.index, Unix(t.now), RETRY_BATCH);
    VisitAll(q, page, t.visits[..|page|], backoff)
  }

  function AfterTicks(q: Queue, ticks: seq<Tick>, backoff: int): Queue
    requires WholeTicks(ticks)
    decreases |ticks|
  {
    if ticks == [] then q
    else
      assert ticks[0] in ticks;
      AfterTicks(AfterTick(q, ticks[0], backoff), ticks[1..], backoff)
  }

  /** The passes that the ticks are. */
  function AsPasses(q: Queue, ticks: seq<Tick>, backoff: int): (passes: seq<Pass>)
    requires WholeTicks(ticks)
    ensures |passes| == |ticks|
    decreases |ticks|
  {
    if ticks == [] then []
    else
      assert ticks[0] in ticks;
      var page := DuePage(q.index, Unix(ticks[0].now), RETRY_BATCH);
      [Pass(ticks[0].now, Visits(ticks[0].visits[..|page|]))]
      + AsPasses(AfterTick(q, ticks[0], backoff), ticks[1..], backoff)
  }

  /** Every tick and every visit of it comes once x's index time has come. */
  predicate InTime(ticks: seq<Tick>, dueAt: int)
  {
    forall t | t in ticks :: dueAt <= Unix(t.now) && forall v | v in t.visits :: 0 <= v.0 && dueAt <= Unix(v.0)
  }

  lemma {:induction false} TicksArePasses(q: Queue, ticks: seq<Tick>, backoff: int, x: string, o: Order, dueAt: int)
    requires WholeTicks(ticks) && InTime(ticks, dueAt)
    ensures RunPasses(q, AsPasses(q, ticks, backoff), backoff) == AfterTicks(q, ticks, backoff)
    ensures FairPasses(q, AsPasses(q, ticks, backoff), backoff, x, o, dueAt)
    decreases |ticks|
  {
    hide DuePage, Visit, VisitAll, FairPass, RunPass;
    if ticks != [] {
      var t := ticks[0];
      assert t in ticks;
      var p := Open(q, t.now);
      var visits := t.visits[..|p.rest|];
      VisitsAreAPass(p, visits, backoff);
      VisitsAreFair(p, visits, backoff, x, o, dueAt);
      TicksArePasses(AfterTick(q, t, backoff), ticks[1..], backoff, x, o, dueAt);
      var passes := AsPasses(q, ticks, backoff);
      assert passes[1..] == AsPasses(AfterTick(q, t, backoff), ticks[1..], backoff);
    }
  }

  /** With nothing else at work, the retry loop attempts an order whose index time has come
      within floor(k / 128) + 1 ticks, k being the entries ahead of it. */
  lemma LoopAttemptsWithin(q: Queue, ticks: seq<Tick>, backoff: int, x: string, o: Order, dueAt: int)
    requires backoff >= NANOS && UntriedAt(q, x, o, dueAt) && x in q.index
    requires WholeTicks(ticks) && InTime(ticks, dueAt)
    requires |ticks| > |Ahead(q.index, x)| / RETRY_BATCH
    ensures x in AfterTicks(q, ticks, backoff).tried
  {
    hide UntriedAt, Ahead, AfterTicks, RunPasses, FairPasses, AsPasses;
    TicksArePasses(q, ticks, backoff, x, o, dueAt);
    AttemptedWithin(q, AsPasses(q, ticks, backoff), backoff, x, o, dueAt);
  }
}
