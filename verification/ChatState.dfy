/** service/chat/store.go: one channel's state. A sequence counter, a bounded ring of messages
    and a bounded ledger of idempotency keys, all replaced by one compare-and-set at a time. */
module ChatState {
  import opened Text
  import opened Ordering

  const DEFAULT_RETAIN := 200
  const MAX_RETAIN := 1000
  const MAX_REQUEST_KEYS := 2048

  datatype Origin = FromRole | FromSystem

  /** A stored message; a draft is one whose number and time are not yet decided. */
  datatype Message = Message(number: nat, origin: Origin, roleID: int, actor: string,
                             kind: string, body: string, requestID: string, storedAt: int)

  datatype Channel = Channel(lastSeq: nat, ring: seq<Message>, requests: map<string, nat>, evicted: nat)

  const FRESH: Channel := Channel(0, [], map[], 0)

  datatype Outcome = Stored(message: Message) | Replayed(message: Message) | KeyReused | AlreadyPublished(number: nat)

  /** newRuleTable: zero selects the default; validate bounds the rest. */
  function RetainOf(configured: int): (retain: Option<nat>)
    ensures retain.Some? ==> 1 <= retain.value <= MAX_RETAIN
  {
    if configured < 0 || configured > MAX_RETAIN then None
    else if configured == 0 then Some(DEFAULT_RETAIN) else Some(configured)
  }

  predicate RetainOk(retain: nat) { 1 <= retain <= MAX_RETAIN }

  /** The retains a channel can have are exactly those some accepted configuration gives. */
  lemma RetainOkIffConfigured(retain: nat)
    ensures RetainOk(retain) <==> exists configured: int :: RetainOf(configured) == Some(retain)
    ensures RetainOk(retain) ==> RetainOf(retain) == Some(retain)
    ensures RetainOf(0) == Some(DEFAULT_RETAIN) && RetainOf(-1).None? && RetainOf(MAX_RETAIN + 1).None?
  {
    assert RetainOk(retain) ==> RetainOf(retain) == Some(retain);
  }

  function KeyBudget(retain: nat): nat
  {
    var doubled := if retain * 2 < DEFAULT_RETAIN then DEFAULT_RETAIN else retain * 2;
    if doubled > MAX_REQUEST_KEYS then MAX_REQUEST_KEYS else doubled
  }

  function Min(a: nat, b: nat): nat { if a < b then a else b }

  // ---------- retention ----------

  /** What dropping the oldest keys down to a budget may leave: as many as fit, and none of
      them older than a key that went. */
  predicate KeepsNewest(all: map<string, nat>, kept: map<string, nat>, budget: nat)
  {
    && (forall k | k in kept :: k in all && kept[k] == all[k])
    && |kept| == Min(|all|, budget)
    && (forall k, j | k in all && k !in kept && j in kept :: all[k] <= all[j])
  }

  /** The keys of the last budget sequence numbers. */
  function WindowKeys(requests: map<string, nat>, lastSeq: nat, budget: nat): map<string, nat>
  {
    map k | k in requests && requests[k] + budget > lastSeq :: requests[k]
  }

  function TrimRing(ring: seq<Message>, retain: nat): (kept: seq<Message>)
    ensures |kept| == Min(|ring|, retain)
  {
    if |ring| > retain then ring[|ring| - retain..] else ring
  }

  /** How many leading messages a prune drops: old enough, and at most limit. */
  function PruneCount(ring: seq<Message>, limit: nat, cutoff: int): (n: nat)
    ensures n <= limit && n <= |ring|
    ensures forall i | 0 <= i < n :: ring[i].storedAt <= cutoff
    ensures n < limit && n < |ring| ==> ring[n].storedAt > cutoff
    decreases limit
  {
    if limit == 0 || ring == [] || ring[0].storedAt > cutoff then 0
    else 1 + PruneCount(ring[1..], limit - 1, cutoff)
  }

  // ---------- the two writes, on values ----------

  predicate SameSender(a: Message, b: Message)
  {
    a.origin == b.origin && (if a.origin == FromSystem then a.actor == b.actor else a.roleID == b.roleID)
  }

  function Lookup(ring: seq<Message>, number: nat): (found: Option<Message>)
    ensures found.Some? ==> found.value in ring && found.value.number == number
    ensures found.None? ==> forall m | m in ring :: m.number != number
  {
    if ring == [] then None
    else if ring[0].number == number then Some(ring[0]) else Lookup(ring[1..], number)
  }

  function Publish(c: Channel, draft: Message, now: int, retain: nat): (Channel, Outcome)
  {
    if draft.requestID in c.requests then
      var number := c.requests[draft.requestID];
      match Lookup(c.ring, number)
      case None => (c, AlreadyPublished(number))
      case Some(existing) => (c, if SameSender(existing, draft) then Replayed(existing) else KeyReused)
    else
      var m := draft.(number := c.lastSeq + 1, storedAt := now);
      var ring := c.ring + [m];
      (Channel(m.number, TrimRing(ring, retain),
               WindowKeys(c.requests[m.requestID := m.number], m.number, KeyBudget(retain)),
               c.evicted + |ring| - |TrimRing(ring, retain)|),
       Stored(m))
  }

  function Pruned(c: Channel, limit: nat, cutoff: int): Channel
  {
    var n := PruneCount(c.ring, limit, cutoff);
    c.(ring := c.ring[n..], evicted := c.evicted + n)
  }

  // ---------- what every channel state satisfies ----------

  /** The keys name exactly the last width sequence numbers, one key each. */
  ghost predicate Ledger(requests: map<string, nat>, lastSeq: nat, width: nat)
  {
    && width <= lastSeq
    && (forall k, j | k in requests && j in requests && requests[k] == requests[j] :: k == j)
    && (forall k | k in requests :: lastSeq - width < requests[k] <= lastSeq)
    && (forall s: nat | lastSeq - width < s <= lastSeq :: s in requests.Values)
  }

  /** The retained messages are the last ones issued, in order, without a hole. */
  ghost predicate RingOk(c: Channel, retain: nat)
  {
    && |c.ring| <= retain
    && c.lastSeq == c.evicted + |c.ring|
    && forall i | 0 <= i < |c.ring| :: c.ring[i].number == c.lastSeq - |c.ring| + 1 + i
  }

  ghost predicate Inv(c: Channel, retain: nat)
  {
    && RingOk(c, retain)
    && Ledger(c.requests, c.lastSeq, Min(c.lastSeq, KeyBudget(retain)))
    && KeysKnown(c.ring, c.requests)
  }

  lemma BudgetCoversRing(retain: nat)
    requires RetainOk(retain)
    ensures retain <= KeyBudget(retain) <= MAX_REQUEST_KEYS
    ensures KeyBudget(retain) >= DEFAULT_RETAIN
    ensures KeyBudget(retain) in {2 * retain, DEFAULT_RETAIN, MAX_REQUEST_KEYS}
    ensures 2 * retain <= MAX_REQUEST_KEYS ==> KeyBudget(retain) >= 2 * retain
  {}

  // ---------- the ledger ----------

  /** The integers above low, up to high. */
  ghost function Interval(low: int, high: int): (s: set<int>)
    requires low <= high
    ensures forall x :: x in s <==> low < x <= high
    ensures |s| == high - low
    decreases high - low
  {
    if low == high then {} else Interval(low, high - 1) + {high}
  }

  ghost function Numbers(requests: map<string, nat>): set<int> { set k | k in requests :: requests[k] as int }

  lemma {:induction false} NumbersSize(requests: map<string, nat>)
    requires forall k, j | k in requests && j in requests && requests[k] == requests[j] :: k == j
    ensures |Numbers(requests)| == |requests|
    decreases |requests|
  {
    if requests == map[] {
      assert Numbers(requests) == {};
    } else {
      var k :| k in requests;
      var rest := requests - {k};
      NumbersSize(rest);
      forall x
        ensures x in Numbers(requests) <==> x == requests[k] || x in Numbers(rest)
      {
        if x in Numbers(requests) && x != requests[k] {
          var j :| j in requests && requests[j] as int == x;
          assert j in rest;
        }
      }
      assert Numbers(requests) == Numbers(rest) + {requests[k] as int};
      assert requests.Keys == rest.Keys + {k};
    }
  }

  lemma LedgerSize(requests: map<string, nat>, lastSeq: nat, width: nat)
    requires Ledger(requests, lastSeq, width)
    ensures |requests| == width
  {
    NumbersSize(requests);
    forall s: int | lastSeq - width < s <= lastSeq
      ensures s in Numbers(requests)
    {
      assert s as nat in requests.Values;
      var k :| k in requests && requests[k] == s;
    }
    assert Numbers(requests) == Interval(lastSeq - width, lastSeq);
  }

  /** Dropping the oldest keys of a ledger, however ties would be broken, leaves exactly the
      last budget sequence numbers. */
  lemma NewestOfLedger(all: map<string, nat>, kept: map<string, nat>, lastSeq: nat, width: nat, budget: nat)
    requires Ledger(all, lastSeq, width) && KeepsNewest(all, kept, budget)
    ensures kept == WindowKeys(all, lastSeq, budget)
    ensures Ledger(kept, lastSeq, Min(width, budget))
  {
    LedgerSize(all, lastSeq, width);
    var b := Min(width, budget);
    NumbersSize(kept);
    forall s: nat | lastSeq - b < s <= lastSeq
      ensures s in kept.Values
    {
      if s !in kept.Values { MissingNumber(all, kept, lastSeq, width, budget, s); }
    }
    forall k | k in kept
      ensures lastSeq - b < kept[k]
    {
      if kept[k] <= lastSeq - b { OlderKeyToo(kept, lastSeq, b, k); }
    }
    forall k | k in all && all[k] + budget > lastSeq
      ensures k in kept
    {
      assert all[k] in kept.Values;
      var j :| j in kept && kept[j] == all[k];
    }
  }

  /** A number missing from the kept keys leaves only the newer numbers for them. */
  lemma MissingNumber(all: map<string, nat>, kept: map<string, nat>, lastSeq: nat, width: nat, budget: nat, s: nat)
    requires Ledger(all, lastSeq, width) && KeepsNewest(all, kept, budget)
    requires lastSeq - width < s <= lastSeq && s !in kept.Values
    ensures |Numbers(kept)| <= lastSeq - s
  {
    assert s in all.Values;
    var gone :| gone in all && all[gone] == s;
    assert Numbers(kept) <= Interval(s, lastSeq);
    SubsetSize(Numbers(kept), Interval(s, lastSeq));
  }

  /** A kept key older than a window that is wholly kept takes one more place. */
  lemma OlderKeyToo(kept: map<string, nat>, lastSeq: nat, b: nat, k: string)
    requires b <= lastSeq && k in kept && kept[k] <= lastSeq - b
    requires forall s: nat | lastSeq - b < s <= lastSeq :: s in kept.Values
    ensures |Numbers(kept)| > b
  {
    var window := Interval(lastSeq - b, lastSeq);
    forall x | x in window
      ensures x in Numbers(kept)
    {
      assert x as nat in kept.Values;
      var j :| j in kept && kept[j] == x;
    }
    assert kept[k] as int in Numbers(kept) && kept[k] as int !in window;
    SubsetSize(window + {kept[k] as int}, Numbers(kept));
  }

  /** One more key at the next number widens the ledger by one. */
  lemma LedgerGrows(requests: map<string, nat>, lastSeq: nat, width: nat, key: string)
    requires Ledger(requests, lastSeq, width) && key !in requests
    ensures Ledger(requests[key := lastSeq + 1], lastSeq + 1, width + 1)
  {
    var grown := requests[key := lastSeq + 1];
    forall s: nat | lastSeq - width < s <= lastSeq + 1
      ensures s in grown.Values
    {
      if s <= lastSeq {
        assert s in requests.Values;
        var k :| k in requests && requests[k] == s;
        assert grown[k] == s;
      } else {
        assert grown[key] == s;
      }
    }
  }

  /** The window a publish keeps is a newest-keys trim of its ledger. */
  lemma WindowIsNewest(all: map<string, nat>, lastSeq: nat, width: nat, budget: nat)
    requires Ledger(all, lastSeq, width)
    ensures Ledger(WindowKeys(all, lastSeq, budget), lastSeq, Min(width, budget))
  {
    var kept := WindowKeys(all, lastSeq, budget);
    forall s: nat | lastSeq - Min(width, budget) < s <= lastSeq
      ensures s in kept.Values
    {
      assert s in all.Values;
      var k :| k in all && all[k] == s;
      assert kept[k] == s;
    }
  }

  // ---------- preservation ----------

  lemma RingGrows(c: Channel, draft: Message, now: int, retain: nat)
    requires RetainOk(retain) && RingOk(c, retain)
    ensures draft.requestID !in c.requests ==> RingOk(Publish(c, draft, now, retain).0, retain)
  {}

  /** Every retained message's key is in the ledger, at the message's number. */
  ghost predicate KeysKnown(ring: seq<Message>, requests: map<string, nat>)
  {
    forall i | 0 <= i < |ring| :: ring[i].requestID in requests && requests[ring[i].requestID] == ring[i].number
  }

  lemma KeysStayKnown(c: Channel, m: Message, retain: nat)
    requires RetainOk(retain) && RingOk(c, retain) && KeysKnown(c.ring, c.requests)
    requires m.requestID !in c.requests && m.number == c.lastSeq + 1
    ensures KeysKnown(TrimRing(c.ring + [m], retain),
                      WindowKeys(c.requests[m.requestID := m.number], m.number, KeyBudget(retain)))
  {
    BudgetCoversRing(retain);
    var ring, requests := c.ring + [m], c.requests[m.requestID := m.number];
    assert KeysKnown(ring, requests);
    var trimmed := TrimRing(ring, retain);
    var kept := WindowKeys(requests, m.number, KeyBudget(retain));
    forall i | 0 <= i < |trimmed|
      ensures trimmed[i].requestID in kept && kept[trimmed[i].requestID] == trimmed[i].number
    {
      var at := |ring| - |trimmed| + i;
      assert trimmed[i] == ring[at];
      assert ring[at].number > m.number - retain;
    }
  }

  /** A publish keeps the invariant, and changes nothing when its key is in the ledger. */
  lemma PublishKeepsInv(c: Channel, draft: Message, now: int, retain: nat)
    requires RetainOk(retain) && Inv(c, retain)
    ensures Inv(Publish(c, draft, now, retain).0, retain)
    ensures draft.requestID in c.requests ==> Publish(c, draft, now, retain).0 == c
  {
    if draft.requestID !in c.requests {
      var budget := KeyBudget(retain);
      var width := Min(c.lastSeq, budget);
      var m := draft.(number := c.lastSeq + 1, storedAt := now);
      InvLedger(c, retain);
      InvKeysKnown(c, retain);
      PublishStores(c, draft, now, retain);
      hide RingOk, Ledger, KeysKnown, TrimRing, WindowKeys, Publish;
      LedgerGrows(c.requests, c.lastSeq, width, draft.requestID);
      WindowIsNewest(c.requests[m.requestID := m.number], m.number, width + 1, budget);
      RingGrows(c, draft, now, retain);
      KeysStayKnown(c, m, retain);
      BudgetCoversRing(retain);
    }
  }

  lemma InvKeysKnown(c: Channel, retain: nat)
    requires Inv(c, retain)
    ensures KeysKnown(c.ring, c.requests) && RingOk(c, retain)
  {}

  /** The state after storing a message, given the keys that stay. */
  function StoredState(c: Channel, m: Message, retain: nat, kept: map<string, nat>): Channel
  {
    var ring := c.ring + [m];
    Channel(m.number, TrimRing(ring, retain), kept, c.evicted + (|ring| - |TrimRing(ring, retain)|))
  }

  lemma PublishStores(c: Channel, draft: Message, now: int, retain: nat)
    requires draft.requestID !in c.requests
    ensures var m := draft.(number := c.lastSeq + 1, storedAt := now);
      var kept := WindowKeys(c.requests[draft.requestID := c.lastSeq + 1], c.lastSeq + 1, KeyBudget(retain));
      Publish(c, draft, now, retain) == (StoredState(c, m, retain, kept), Stored(m))
  {}

  /** Whatever keys a trim leaves, the state is the one a publish specifies. */
  lemma TrimmedIsPublished(c: Channel, draft: Message, now: int, retain: nat, kept: map<string, nat>)
    requires Inv(c, retain) && draft.requestID !in c.requests
    requires KeepsNewest(c.requests[draft.requestID := c.lastSeq + 1], kept, KeyBudget(retain))
    ensures var m := draft.(number := c.lastSeq + 1, storedAt := now);
      Publish(c, draft, now, retain) == (StoredState(c, m, retain, kept), Stored(m))
  {
    hide Inv, KeepsNewest, WindowKeys, Publish, KeyBudget, StoredState;
    PublishStores(c, draft, now, retain);
    TrimmedKeys(c, draft.requestID, retain, kept);
  }

  lemma TrimmedKeys(c: Channel, key: string, retain: nat, kept: map<string, nat>)
    requires Inv(c, retain) && key !in c.requests
    requires KeepsNewest(c.requests[key := c.lastSeq + 1], kept, KeyBudget(retain))
    ensures kept == WindowKeys(c.requests[key := c.lastSeq + 1], c.lastSeq + 1, KeyBudget(retain))
  {
    hide Inv, Ledger, KeepsNewest, WindowKeys, KeyBudget, Min;
    InvLedger(c, retain);
    var width := Min(c.lastSeq, KeyBudget(retain));
    LedgerGrows(c.requests, c.lastSeq, width, key);
    NewestOfLedger(c.requests[key := c.lastSeq + 1], kept, c.lastSeq + 1, width + 1, KeyBudget(retain));
  }

  /** The stored message and the draft come from one publisher: of the same kind, a role being
      told by its id and the game by the actor it declared. */
  ghost predicate OnePublisher(e: Message, draft: Message)
  {
    && e.origin == draft.origin
    && (draft.origin == FromSystem ==> e.actor == draft.actor)
    && (draft.origin == FromRole ==> e.roleID == draft.roleID)
  }

  /** What a publish answers and leaves, told by the ring and the ledger. */
  lemma PublishMeaning(c: Channel, draft: Message, now: int, retain: nat)
    requires RetainOk(retain) && Inv(c, retain)
    ensures var (after, outcome) := Publish(c, draft, now, retain);
      if draft.requestID in c.requests then
        var number := c.requests[draft.requestID];
        && after == c
        && (forall e | e in c.ring && e.number == number ::
              outcome == if OnePublisher(e, draft) then Replayed(e) else KeyReused)
        && ((forall e | e in c.ring :: e.number != number) ==> outcome == AlreadyPublished(number))
      else
        var m := draft.(number := c.lastSeq + 1, storedAt := now);
        && outcome == Stored(m)
        && after.lastSeq == m.number && after.evicted == c.evicted + |c.ring| + 1 - |after.ring|
        && |after.ring| == Min(|c.ring| + 1, retain)
        && after.ring == (c.ring + [m])[|c.ring| + 1 - |after.ring|..]
        && draft.requestID in after.requests && after.requests[draft.requestID] == m.number
        && (forall k | k in after.requests && k != draft.requestID ::
              k in c.requests && after.requests[k] == c.requests[k])
        && (forall k | k in c.requests && c.requests[k] + KeyBudget(retain) > m.number :: k in after.requests)
  {
    hide Ledger, KeysKnown, Lookup;
    BudgetCoversRing(retain);
    if draft.requestID in c.requests {
      var number := c.requests[draft.requestID];
      forall e | e in c.ring && e.number == number
        ensures Lookup(c.ring, number) == Some(e)
      {
        OnlyOneByNumber(c, retain, e);
      }
    }
  }

  lemma OnlyOneByNumber(c: Channel, retain: nat, e: Message)
    requires RingOk(c, retain) && e in c.ring
    ensures Lookup(c.ring, e.number) == Some(e)
  {
    hide Lookup;
    var found := Lookup(c.ring, e.number);
    assert found.Some?;
    var i :| 0 <= i < |c.ring| && c.ring[i] == e;
    var j :| 0 <= j < |c.ring| && c.ring[j] == found.value;
  }

  lemma InvLedger(c: Channel, retain: nat)
    requires Inv(c, retain)
    ensures Ledger(c.requests, c.lastSeq, Min(c.lastSeq, KeyBudget(retain)))
  {}

  lemma PruneKeepsInv(c: Channel, limit: nat, cutoff: int, retain: nat)
    requires Inv(c, retain)
    ensures Inv(Pruned(c, limit, cutoff), retain)
  {}

  // ---------- any run ----------

  /** What can happen to a channel: an append at any clock reading, or a prune with any cutoff. */
  datatype Action = Append(draft: Message, now: int) | Prune(limit: nat, cutoff: int)

  function Act(c: Channel, a: Action, retain: nat): Channel
  {
    match a
    case Append(draft, now) => Publish(c, draft, now, retain).0
    case Prune(limit, cutoff) => Pruned(c, limit, cutoff)
  }

  /** A channel with the history of everything it ever stored. */
  datatype History = History(channel: Channel, log: seq<Message>)

  function Step(h: History, a: Action, retain: nat): History
  {
    var log := match a
      case Append(draft, now) =>
        (match Publish(h.channel, draft, now, retain).1
         case Stored(m) => h.log + [m]
         case _ => h.log)
      case Prune(_, _) => h.log;
    History(Act(h.channel, a, retain), log)
  }

  function Run(h: History, actions: seq<Action>, retain: nat): History
    decreases |actions|
  {
    if actions == [] then h else Run(Step(h, actions[0], retain), actions[1..], retain)
  }

  const BEGINNING: History := History(FRESH, [])

  /** The ledger indexes the log's last budget entries. */
  ghost predicate Indexed(requests: map<string, nat>, log: seq<Message>, budget: nat)
  {
    forall i | 0 <= i < |log| && i + budget >= |log| ::
      log[i].requestID in requests && requests[log[i].requestID] == i + 1
  }

  /** No key is in two places of the log closer than the budget. */
  ghost predicate Spaced(log: seq<Message>, budget: nat)
  {
    forall i, j | 0 <= i < j < |log| && log[i].requestID == log[j].requestID :: j - i > budget
  }

  ghost predicate Numbered(log: seq<Message>) { forall i | 0 <= i < |log| :: log[i].number == i + 1 }

  /** The ring is the end of the log. */
  ghost predicate IsTail(ring: seq<Message>, log: seq<Message>)
  {
    |ring| <= |log| && ring == log[|log| - |ring|..]
  }

  ghost predicate HistoryOk(h: History, retain: nat)
  {
    && Inv(h.channel, retain)
    && |h.log| == h.channel.lastSeq
    && Numbered(h.log)
    && IsTail(h.channel.ring, h.log)
    && Indexed(h.channel.requests, h.log, KeyBudget(retain))
    && Spaced(h.log, KeyBudget(retain))
  }

  lemma StepKeepsHistory(h: History, a: Action, retain: nat)
    requires RetainOk(retain) && HistoryOk(h, retain)
    ensures HistoryOk(Step(h, a, retain), retain)
    ensures h.log <= Step(h, a, retain).log
  {
    match a {
      case Append(draft, now) =>
        PublishKeepsInv(h.channel, draft, now, retain);
        hide Inv;
        if draft.requestID !in h.channel.requests { AppendExtendsHistory(h, draft, now, retain); }
      case Prune(limit, cutoff) =>
        PruneKeepsInv(h.channel, limit, cutoff, retain);
        hide Inv;
        TailOfTail(h.channel.ring, h.log, PruneCount(h.channel.ring, limit, cutoff));
    }
  }

  lemma TailOfTail(ring: seq<Message>, log: seq<Message>, n: nat)
    requires IsTail(ring, log) && n <= |ring|
    ensures IsTail(ring[n..], log)
  {}

  lemma TailGrows(ring: seq<Message>, log: seq<Message>, m: Message, retain: nat)
    requires IsTail(ring, log)
    ensures IsTail(TrimRing(ring + [m], retain), log + [m])
  {
    assert ring + [m] == (log + [m])[|log| + 1 - |ring + [m]|..];
    assert IsTail(ring + [m], log + [m]);
    if |ring + [m]| > retain { TailOfTail(ring + [m], log + [m], |ring| + 1 - retain); }
  }

  lemma IndexGrows(requests: map<string, nat>, log: seq<Message>, m: Message, budget: nat)
    requires budget > 0 && Indexed(requests, log, budget) && m.requestID !in requests
    ensures Indexed(WindowKeys(requests[m.requestID := |log| + 1], |log| + 1, budget), log + [m], budget)
  {
    var after := WindowKeys(requests[m.requestID := |log| + 1], |log| + 1, budget);
    var longer := log + [m];
    forall i | 0 <= i < |longer| && i + budget >= |longer|
      ensures longer[i].requestID in after && after[longer[i].requestID] == i + 1
    {
      if i < |log| { assert log[i].requestID in requests && requests[log[i].requestID] == i + 1; }
    }
  }

  lemma SpacingGrows(requests: map<string, nat>, log: seq<Message>, m: Message, budget: nat)
    requires Indexed(requests, log, budget) && Spaced(log, budget) && m.requestID !in requests
    ensures Spaced(log + [m], budget)
  {
    var longer := log + [m];
    forall i, j | 0 <= i < j < |longer| && longer[i].requestID == longer[j].requestID
      ensures j - i > budget
    {
      if j < |log| {
        assert log[i].requestID == log[j].requestID;
      } else {
        assert log[i].requestID == m.requestID;
      }
    }
  }

  lemma AppendExtendsHistory(h: History, draft: Message, now: int, retain: nat)
    requires RetainOk(retain) && HistoryOk(h, retain) && draft.requestID !in h.channel.requests
    requires Inv(Publish(h.channel, draft, now, retain).0, retain)
    ensures HistoryOk(Step(h, Append(draft, now), retain), retain)
  {
    hide Inv, Spaced, Indexed, IsTail, TrimRing, WindowKeys;
    var c, budget := h.channel, KeyBudget(retain);
    var m := draft.(number := c.lastSeq + 1, storedAt := now);
    TailGrows(c.ring, h.log, m, retain);
    IndexGrows(c.requests, h.log, m, budget);
    SpacingGrows(c.requests, h.log, m, budget);
  }

  lemma {:induction false} RunKeepsHistory(h: History, actions: seq<Action>, retain: nat)
    requires RetainOk(retain) && HistoryOk(h, retain)
    ensures HistoryOk(Run(h, actions, retain), retain)
    ensures h.log <= Run(h, actions, retain).log
    decreases |actions|
  {
    hide HistoryOk, Step;
    if actions != [] {
      StepKeepsHistory(h, actions[0], retain);
      RunKeepsHistory(Step(h, actions[0], retain), actions[1..], retain);
    }
  }

  lemma BeginningOk(retain: nat)
    ensures HistoryOk(BEGINNING, retain)
  {}

  /** Any order of appends, evictions and prunes, with a clock that may run backwards: the
      conservation law, the ring without holes, and the ledger's exact contents. */
  lemma EveryChannelState(actions: seq<Action>, configured: int)
    requires RetainOf(configured).Some?
    ensures var retain := RetainOf(configured).value;
      var c := Run(BEGINNING, actions, retain).channel;
      && |c.ring| <= retain <= KeyBudget(retain)
      && c.lastSeq == c.evicted + |c.ring|
      && (forall i | 0 <= i < |c.ring| :: c.ring[i].number == c.lastSeq - |c.ring| + 1 + i)
      && |c.requests| == Min(c.lastSeq, KeyBudget(retain))
      && Ledger(c.requests, c.lastSeq, Min(c.lastSeq, KeyBudget(retain)))
      && (forall i, j | 0 <= i < j < |c.ring| :: c.ring[i].requestID != c.ring[j].requestID)
  {
    var retain := RetainOf(configured).value;
    BeginningOk(retain);
    RunKeepsHistory(BEGINNING, actions, retain);
    BudgetCoversRing(retain);
    var c := Run(BEGINNING, actions, retain).channel;
    hide Run;
    LedgerSize(c.requests, c.lastSeq, Min(c.lastSeq, KeyBudget(retain)));
  }

  /** Over a whole run, the same key is stored again only after more than budget others: inside
      the window it is never stored a second time. */
  lemma KeysRepeatOnlyOutsideWindow(actions: seq<Action>, retain: nat, i: nat, j: nat)
    requires RetainOk(retain)
    requires i < j < |Run(BEGINNING, actions, retain).log|
    requires Run(BEGINNING, actions, retain).log[i].requestID == Run(BEGINNING, actions, retain).log[j].requestID
    ensures j - i > KeyBudget(retain)
  {
    BeginningOk(retain);
    RunKeepsHistory(BEGINNING, actions, retain);
    hide Run, Inv;
  }

  /** What a publish whose key is inside the window is answered: the stored message itself when
      it is retained and the sender is the same, a refusal otherwise; never a second copy. */
  lemma AnswerInsideWindow(h: History, draft: Message, now: int, retain: nat, i: nat)
    requires HistoryOk(h, retain)
    requires i < |h.log| && i + KeyBudget(retain) >= |h.log| && h.log[i].requestID == draft.requestID
    ensures var out := Publish(h.channel, draft, now, retain);
      && out.0 == h.channel
      && out.1 == if i < |h.log| - |h.channel.ring| then AlreadyPublished(i + 1)
                  else if OnePublisher(h.log[i], draft) then Replayed(h.log[i]) else KeyReused
  {
    hide HistoryOk, Lookup;
    KeyIsIndexed(h, retain, i);
    LookupInHistory(h, retain, i);
  }

  lemma KeyIsIndexed(h: History, retain: nat, i: nat)
    requires HistoryOk(h, retain) && i < |h.log| && i + KeyBudget(retain) >= |h.log|
    ensures h.log[i].requestID in h.channel.requests && h.channel.requests[h.log[i].requestID] == i + 1
  {
    hide Inv, Spaced, Numbered, IsTail;
  }

  lemma LookupInHistory(h: History, retain: nat, i: nat)
    requires HistoryOk(h, retain) && i < |h.log|
    ensures |h.channel.ring| <= |h.log|
    ensures Lookup(h.channel.ring, i + 1) == if i < |h.log| - |h.channel.ring| then None else Some(h.log[i])
  {
    hide Inv, Indexed, Spaced, Lookup;
    var low := |h.log| - |h.channel.ring|;
    forall k | 0 <= k < |h.channel.ring|
      ensures h.channel.ring[k] == h.log[low + k] && h.log[low + k].number == low + k + 1
    {}
    LookupByPlace(h.channel.ring, low, i + 1);
  }

  lemma LookupByPlace(ring: seq<Message>, low: nat, number: nat)
    requires forall k | 0 <= k < |ring| :: ring[k].number == low + k + 1
    requires number <= low + |ring|
    ensures Lookup(ring, number) == if number <= low then None else Some(ring[number - low - 1])
  {
    hide Lookup;
    if number > low { assert ring[number - low - 1] in ring; }
    var found := Lookup(ring, number);
    if found.Some? {
      var k :| 0 <= k < |ring| && ring[k] == found.value;
    }
  }

  // ---------- the state as the store updates it ----------

  lemma PruneStopsHere(ring: seq<Message>, limit: nat, cutoff: int, n: nat)
    requires n <= limit && n <= |ring| && forall i | 0 <= i < n :: ring[i].storedAt <= cutoff
    requires n == limit || n == |ring| || ring[n].storedAt > cutoff
    ensures PruneCount(ring, limit, cutoff) == n
  {}

  /** The ledger's entries, each once, by ascending sequence number. */
  ghost predicate ListsOldestFirst(entries: seq<(int, string)>, requests: map<string, nat>)
  {
    && |entries| == |requests| && SortedBy(entries, ScoredBefore)
    && (forall e :: e in entries <==> e.1 in requests && requests[e.1] == e.0)
    && (forall i, j | 0 <= i < j < |entries| :: entries[i] != entries[j])
  }

  function OldestFirst(requests: map<string, nat>): (entries: seq<(int, string)>)
    ensures |entries| == |requests| && ListsOldestFirst(entries, requests)
  {
    var pairs: set<(int, string)> := set k | k in requests :: (requests[k] as int, k);
    ScoredBeforeIsStrictTotal(pairs);
    PairsSize<string, int>(requests, requests.Keys, pairs);
    SortedHasNoRepeats(Sort(pairs, ScoredBefore), pairs, ScoredBefore);
    Sort(pairs, ScoredBefore)
  }

  /** The leading messages that are old enough go, one by one, at most limit of them. */
  method DropAged(ring: seq<Message>, limit: nat, cutoff: int) returns (next: seq<Message>, pruned: nat)
    ensures pruned == PruneCount(ring, limit, cutoff) && next == ring[pruned..]
  {
    hide PruneCount;
    next, pruned := ring, 0;
    while |next| > 0 && pruned < limit && next[0].storedAt <= cutoff
      invariant pruned <= limit && pruned <= |ring| && next == ring[pruned..]
      invariant forall i | 0 <= i < pruned :: ring[i].storedAt <= cutoff
      decreases |next|
    {
      assert ring[pruned..][1..] == ring[pruned + 1..];
      next := next[1..];
      pruned := pruned + 1;
    }
    PruneStopsHere(ring, limit, cutoff, pruned);
  }

  class ChannelState {
    var lastSeq: nat
    var ring: seq<Message>
    var requests: map<string, nat>
    var evicted: nat
    const retain: nat

    ghost function View(): Channel
      reads this
    {
      Channel(lastSeq, ring, requests, evicted)
    }

    ghost predicate Valid()
      reads this
    {
      RetainOk(retain) && Inv(View(), retain)
    }

    /** A channel of a kind whose rule was accepted. */
    constructor (configured: int)
      requires RetainOf(configured).Some?
      ensures Valid() && View() == FRESH && retain == RetainOf(configured).value
      ensures retain == if configured == 0 then DEFAULT_RETAIN else configured
    {
      lastSeq, ring, requests, evicted := 0, [], map[], 0;
      retain := RetainOf(configured).value;
    }

    /** Binary search over the ascending ring. */
    method Find(number: nat) returns (found: Option<Message>)
      requires Valid()
      ensures found == Lookup(ring, number)
    {
      var low, high := 0, |ring|;
      while low < high
        invariant 0 <= low <= high <= |ring|
        invariant forall i | 0 <= i < low :: ring[i].number < number
        invariant forall i | high <= i < |ring| :: ring[i].number >= number
      {
        var mid := (low + high) / 2;
        if ring[mid].number >= number { high := mid; } else { low := mid + 1; }
      }
      ghost var looked := Lookup(ring, number);
      if low < |ring| && ring[low].number == number {
        assert ring[low] in ring;
        assert looked.Some?;
        ghost var at :| 0 <= at < |ring| && ring[at] == looked.value;
        return Some(ring[low]);
      }
      return None;
    }

    /** Deletes the oldest keys until the budget holds. */
    method DropOldestKeys(budget: nat)
      modifies this`requests
      ensures KeepsNewest(old(requests), requests, budget)
    {
      hide ScoredBefore, WithoutFirst, ListsOldestFirst, OldestFirst, KeepsNewest, StrictTotal, SortedBy, Enumerates;
      if |requests| <= budget {
        FitsAlready(requests, budget);
      } else {
        ghost var all := requests;
        var entries := OldestFirst(requests);
        var excess := |requests| - budget;
        var i := 0;
        NothingDropped(all, entries);
        while i < excess
          invariant 0 <= i <= excess && |requests| == |all| - i
          invariant WithoutFirst(all, requests, entries, i)
        {
          DropNext(all, requests, entries, i);
          requests := requests - {entries[i].1};
          i := i + 1;
        }
        OldestAreGone(all, requests, entries, budget);
      }
    }

    /** The ring is cut to its newest messages and the ledger to its newest keys. */
    method Trim() returns (dropped: nat)
      modifies this`ring, this`requests, this`evicted
      ensures ring == TrimRing(old(ring), retain) && dropped == |old(ring)| - |ring|
      ensures evicted == old(evicted) + dropped
      ensures KeepsNewest(old(requests), requests, KeyBudget(retain))
    {
      dropped := 0;
      if |ring| > retain {
        dropped := |ring| - retain;
        ring := ring[dropped..];
      }
      evicted := evicted + dropped;
      DropOldestKeys(KeyBudget(retain));
    }

    /** The one write path of a publish. */
    method Append(draft: Message, now: int) returns (outcome: Outcome)
      requires Valid()
      modifies this
      ensures Valid()
      ensures (View(), outcome) == Publish(old(View()), draft, now, retain)
      ensures draft.requestID in old(requests) ==>
        var number := old(requests)[draft.requestID];
        && View() == old(View())
        && (forall e | e in old(ring) && e.number == number ::
              outcome == if e.origin == draft.origin
                            && (draft.origin == FromSystem ==> e.actor == draft.actor)
                            && (draft.origin == FromRole ==> e.roleID == draft.roleID)
                         then Replayed(e) else KeyReused)
        && ((forall e | e in old(ring) :: e.number != number) ==> outcome == AlreadyPublished(number))
      ensures draft.requestID !in old(requests) ==>
        && outcome == Stored(draft.(number := old(lastSeq) + 1, storedAt := now)) && lastSeq == old(lastSeq) + 1
        && |ring| == Min(|old(ring)| + 1, retain) && evicted == old(evicted) + |old(ring)| + 1 - |ring|
        && ring == (old(ring) + [outcome.message])[|old(ring)| + 1 - |ring|..]
        && draft.requestID in requests && requests[draft.requestID] == lastSeq
        && (forall k | k in requests && k != draft.requestID ::
              k in old(requests) && requests[k] == old(requests)[k])
    {
      hide Inv, RingOk, Ledger, KeysKnown, KeyBudget, Lookup, Publish, RetainOk;
      PublishMeaning(View(), draft, now, retain);
      if draft.requestID in requests {
        var number := requests[draft.requestID];
        var found := Find(number);
        match found {
          case None => return AlreadyPublished(number);
          case Some(existing) =>
            if !SameSender(existing, draft) { return KeyReused; }
            return Replayed(existing);
        }
      }
      var message := StoreNew(draft, now);
      return Stored(message);
    }

    /** A new key: the message takes the next number and the state is trimmed. */
    method StoreNew(draft: Message, now: int) returns (message: Message)
      requires Valid() && draft.requestID !in requests
      modifies this
      ensures Valid()
      ensures (View(), Stored(message)) == Publish(old(View()), draft, now, retain)
    {
      hide Inv, RingOk, Ledger, KeysKnown, WindowKeys, TrimRing, KeepsNewest, Publish;
      ghost var before := View();
      PublishKeepsInv(before, draft, now, retain);
      message := draft.(number := lastSeq + 1, storedAt := now);
      lastSeq := message.number;
      ring := ring + [message];
      requests := requests[message.requestID := message.number];
      var _ := Trim();
      TrimmedIsPublished(before, draft, now, retain, requests);
    }

    /** Drops leading messages that are old enough, at most limit of them. */
    method Prune(limit: nat, cutoff: int) returns (pruned: nat)
      requires Valid()
      modifies this
      ensures Valid()
      ensures View() == Pruned(old(View()), limit, cutoff) && pruned == PruneCount(old(ring), limit, cutoff)
      ensures pruned <= limit && pruned <= |old(ring)|
      ensures ring == old(ring)[pruned..] && evicted == old(evicted) + pruned
      ensures forall i | 0 <= i < pruned :: old(ring)[i].storedAt <= cutoff
      ensures pruned < limit && ring != [] ==> ring[0].storedAt > cutoff
      ensures lastSeq == old(lastSeq) && requests == old(requests)
    {
      hide Inv, PruneCount, RetainOk;
      PruneKeepsInv(View(), limit, cutoff, retain);
      var next: seq<Message>;
      next, pruned := DropAged(ring, limit, cutoff);
      if pruned == 0 { return; }
      ring := next;
      evicted := evicted + pruned;
    }
  }

  lemma RemoveOne(requests: map<string, nat>, key: string)
    requires key in requests
    ensures |requests - {key}| == |requests| - 1
  {
    var rest := requests - {key};
    assert requests.Keys == rest.Keys + {key};
  }

  ghost function FirstKeys(entries: seq<(int, string)>, n: nat): set<string>
    requires n <= |entries|
  {
    set i | 0 <= i < n :: entries[i].1
  }

  /** The keys left once the first n entries are gone. */
  ghost predicate WithoutFirst(all: map<string, nat>, kept: map<string, nat>, entries: seq<(int, string)>, n: nat)
  {
    n <= |entries| && kept == all - FirstKeys(entries, n)
  }

  lemma NothingDropped(all: map<string, nat>, entries: seq<(int, string)>)
    ensures WithoutFirst(all, all, entries, 0)
  {
    assert FirstKeys(entries, 0) == {};
  }

  lemma FitsAlready(requests: map<string, nat>, budget: nat)
    requires |requests| <= budget
    ensures KeepsNewest(requests, requests, budget)
  {}

  lemma NextKey(all: map<string, nat>, entries: seq<(int, string)>, n: nat)
    requires n < |entries| && ListsOldestFirst(entries, all)
    ensures entries[n].1 in all && entries[n].1 !in FirstKeys(entries, n)
    ensures FirstKeys(entries, n + 1) == FirstKeys(entries, n) + {entries[n].1}
  {
    assert entries[n] in entries;
    forall i | 0 <= i < n
      ensures entries[i].1 != entries[n].1
    {
      assert entries[i] in entries && entries[i] != entries[n];
    }
  }

  lemma DropNext(all: map<string, nat>, kept: map<string, nat>, entries: seq<(int, string)>, n: nat)
    requires WithoutFirst(all, kept, entries, n) && n < |entries| && ListsOldestFirst(entries, all)
    ensures entries[n].1 in kept && |kept - {entries[n].1}| == |kept| - 1
    ensures WithoutFirst(all, kept - {entries[n].1}, entries, n + 1)
  {
    NextKey(all, entries, n);
    hide FirstKeys, ListsOldestFirst;
    RemoveOne(kept, entries[n].1);
    RemoveTwice(all, FirstKeys(entries, n), entries[n].1);
  }

  lemma RemoveTwice(all: map<string, nat>, gone: set<string>, key: string)
    ensures (all - gone) - {key} == all - (gone + {key})
  {}

  lemma DroppedAreOldest(all: map<string, nat>, kept: map<string, nat>, entries: seq<(int, string)>, excess: nat)
    requires ListsOldestFirst(entries, all) && WithoutFirst(all, kept, entries, excess)
    ensures forall k, j | k in all && k !in kept && j in kept :: all[k] <= all[j]
  {
    forall k, j | k in all && k !in kept && j in kept
      ensures all[k] <= all[j]
    {
      assert k in FirstKeys(entries, excess) && j !in FirstKeys(entries, excess);
      var a :| 0 <= a < excess && entries[a].1 == k;
      assert entries[a] in entries && (all[j], j) in entries;
      var b :| 0 <= b < |entries| && entries[b] == (all[j], j);
      assert b >= excess;
      assert ScoredBefore(entries[a], entries[b]);
    }
  }

  lemma OldestAreGone(all: map<string, nat>, kept: map<string, nat>, entries: seq<(int, string)>, budget: nat)
    requires |all| > budget && |kept| == budget
    requires ListsOldestFirst(entries, all) && WithoutFirst(all, kept, entries, |all| - budget)
    ensures KeepsNewest(all, kept, budget)
  {
    DroppedAreOldest(all, kept, entries, |all| - budget);
  }
}
