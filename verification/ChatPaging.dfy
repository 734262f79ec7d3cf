/** service/chat/store.go, History and pageOf: cursor paging over the retained ring, and what a
    reader that chains pages gets. */
module ChatPaging {
  import opened Text
  import opened ChatState

  const MAX_PAGE_SIZE := 200

  /** Both cursors are exclusive; zero means "not set". */
  datatype Query = Query(after: nat, before: nat, limit: int)

  datatype Page = Page(messages: seq<Message>, next: nat, prev: nat, hasMore: bool, gap: bool, oldest: nat, latest: nat)

  datatype ChatError = CursorInvalid | RangeInvalid
  datatype Result = Success(page: Page) | Failure(error: ChatError)

  function Validate(q: Query): Option<ChatError>
  {
    if q.after > 0 && q.before > 0 then Some(CursorInvalid)
    else if q.limit <= 0 || q.limit > MAX_PAGE_SIZE then Some(RangeInvalid)
    else None
  }

  // ---------- what a page is ----------

  function Newer(ring: seq<Message>, n: nat): seq<Message>
  {
    if ring == [] then []
    else (if ring[0].number > n then [ring[0]] else []) + Newer(ring[1..], n)
  }

  function Older(ring: seq<Message>, n: nat): seq<Message>
  {
    if ring == [] then []
    else (if ring[0].number < n then [ring[0]] else []) + Older(ring[1..], n)
  }

  function First(s: seq<Message>, n: nat): seq<Message> { if n < |s| then s[..n] else s }
  function Last(s: seq<Message>, n: nat): seq<Message> { if n < |s| then s[|s| - n..] else s }

  function Oldest(ring: seq<Message>): nat { if ring == [] then 0 else ring[0].number }

  /** Some number after the cursor is issued but no longer retained. */
  ghost predicate Missed(c: Channel, after: nat)
  {
    exists s: nat :: after < s <= c.lastSeq && !Retained(c, s)
  }

  predicate Retained(c: Channel, number: nat) { exists m | m in c.ring :: m.number == number }

  /** The messages a query selects: the first newer ones, the last older ones, or the newest. */
  function Selected(c: Channel, q: Query): seq<Message>
    requires q.limit > 0
  {
    if q.after > 0 then First(Newer(c.ring, q.after), q.limit)
    else if q.before > 0 then Last(Older(c.ring, q.before), q.limit)
    else Last(c.ring, q.limit)
  }

  function Eligible(c: Channel, q: Query): seq<Message>
  {
    if q.after > 0 then Newer(c.ring, q.after) else if q.before > 0 then Older(c.ring, q.before) else c.ring
  }

  /** A page as its reader may rely on it. */
  ghost predicate IsPage(c: Channel, q: Query, page: Page)
    requires q.limit > 0
  {
    && page.messages == Selected(c, q)
    && (page.hasMore <==> |Eligible(c, q)| > q.limit)
    && (page.gap <==> q.after > 0 && Missed(c, q.after))
    && page.oldest == Oldest(c.ring) && page.latest == c.lastSeq
    && (if page.messages == [] then page.next == (if q.after > 0 then q.after else c.lastSeq) && page.prev == 0
        else page.next == page.messages[|page.messages| - 1].number && page.prev == page.messages[0].number)
  }

  // ---------- the ring's suffixes and prefixes ----------

  ghost predicate Consecutive(c: Channel)
  {
    && |c.ring| <= c.lastSeq
    && forall i | 0 <= i < |c.ring| :: c.ring[i].number == c.lastSeq - |c.ring| + 1 + i
  }

  lemma {:induction false} NewerIsSuffix(ring: seq<Message>, n: nat, start: nat)
    requires start <= |ring|
    requires forall i | 0 <= i < start :: ring[i].number <= n
    requires forall i | start <= i < |ring| :: ring[i].number > n
    ensures Newer(ring, n) == ring[start..]
    decreases |ring|
  {
    if ring != [] {
      if start == 0 {
        NewerIsSuffix(ring[1..], n, 0);
        assert ring == [ring[0]] + ring[1..];
      } else {
        NewerIsSuffix(ring[1..], n, start - 1);
        assert ring[1..][start - 1..] == ring[start..];
      }
    }
  }

  lemma {:induction false} OlderIsPrefix(ring: seq<Message>, n: nat, end: nat)
    requires end <= |ring|
    requires forall i | 0 <= i < end :: ring[i].number < n
    requires forall i | end <= i < |ring| :: ring[i].number >= n
    ensures Older(ring, n) == ring[..end]
    decreases |ring|
  {
    if ring != [] {
      if end == 0 {
        OlderIsPrefix(ring[1..], n, 0);
      } else {
        OlderIsPrefix(ring[1..], n, end - 1);
        assert ring[..end] == [ring[0]] + ring[1..][..end - 1];
      }
    }
  }

  /** Where a forward cursor cuts the ring. */
  function CutAfter(c: Channel, n: nat): (start: nat)
    ensures start <= |c.ring|
  {
    if n + |c.ring| <= c.lastSeq then 0
    else if n >= c.lastSeq then |c.ring| else n + |c.ring| - c.lastSeq
  }

  lemma NewerFromCut(c: Channel, n: nat)
    requires Consecutive(c)
    ensures Newer(c.ring, n) == c.ring[CutAfter(c, n)..]
  {
    NewerIsSuffix(c.ring, n, CutAfter(c, n));
  }

  lemma OlderToCut(c: Channel, n: nat)
    requires Consecutive(c) && n > 0
    ensures Older(c.ring, n) == c.ring[..CutAfter(c, n - 1)]
  {
    OlderIsPrefix(c.ring, n, CutAfter(c, n - 1));
  }

  lemma MissedIffBeforeOldest(c: Channel, after: nat)
    requires Consecutive(c)
    ensures Missed(c, after) <==> after + |c.ring| < c.lastSeq
  {
    forall s: nat | s <= c.lastSeq
      ensures Retained(c, s) <==> s + |c.ring| > c.lastSeq
    {
      RetainedNumbers(c, s);
    }
    assert after + |c.ring| < c.lastSeq ==> after < after + 1 <= c.lastSeq && !Retained(c, after + 1);
  }

  lemma RetainedNumbers(c: Channel, s: nat)
    requires Consecutive(c) && s <= c.lastSeq
    ensures Retained(c, s) <==> s + |c.ring| > c.lastSeq
  {
    if s + |c.ring| > c.lastSeq {
      var i := s - (c.lastSeq - |c.ring| + 1);
      assert c.ring[i] in c.ring && c.ring[i].number == s;
    } else {
      forall m | m in c.ring
        ensures m.number != s
      {
        var i :| 0 <= i < |c.ring| && c.ring[i] == m;
      }
    }
  }

  // ---------- the scan ----------

  lemma ForwardSlice(c: Channel, q: Query, start: nat, end: nat)
    requires Consecutive(c) && q.after > 0 && q.limit > 0
    requires start <= |c.ring| && end == Min(start + q.limit, |c.ring|)
    requires forall i | 0 <= i < start :: c.ring[i].number <= q.after
    requires start == |c.ring| || c.ring[start].number > q.after
    ensures c.ring[start..end] == Selected(c, q) && (end < |c.ring| <==> |Eligible(c, q)| > q.limit)
  {
    forall i | start <= i < |c.ring|
      ensures c.ring[i].number > q.after
    {
      assert c.ring[i].number == c.ring[start].number + (i - start);
    }
    NewerIsSuffix(c.ring, q.after, start);
    hide Newer;
    assert Eligible(c, q) == c.ring[start..];
  }

  lemma BackwardSlice(c: Channel, q: Query, start: nat, end: nat)
    requires Consecutive(c) && q.after == 0 && q.before > 0 && q.limit > 0
    requires end <= |c.ring| && start == (if end < q.limit then 0 else end - q.limit)
    requires forall i | 0 <= i < end :: c.ring[i].number < q.before
    requires end == |c.ring| || c.ring[end].number >= q.before
    ensures c.ring[start..end] == Selected(c, q) && (start > 0 <==> |Eligible(c, q)| > q.limit)
  {
    forall i | end <= i < |c.ring|
      ensures c.ring[i].number >= q.before
    {
      assert c.ring[i].number == c.ring[end].number + (i - end);
    }
    OlderIsPrefix(c.ring, q.before, end);
    hide Older;
    assert Eligible(c, q) == c.ring[..end];
  }

  lemma NewestSlice(c: Channel, q: Query, start: nat)
    requires q.after == 0 && q.before == 0 && q.limit > 0
    requires start == (if |c.ring| < q.limit then 0 else |c.ring| - q.limit)
    ensures c.ring[start..] == Selected(c, q) && (start > 0 <==> |Eligible(c, q)| > q.limit)
  {}

  lemma GapIsMissed(c: Channel, after: nat)
    requires Consecutive(c)
    ensures (if |c.ring| == 0 then after < c.lastSeq else after + 1 < Oldest(c.ring)) <==> Missed(c, after)
  {
    hide Missed;
    MissedIffBeforeOldest(c, after);
  }

  /** Slices the ring by index loops; the result is the page the query asks for. */
  method PageOf(c: Channel, q: Query) returns (page: Page)
    requires Consecutive(c) && Validate(q).None?
    ensures IsPage(c, q, page)
  {
    hide Selected, Eligible, Missed, Consecutive;
    page := Page([], 0, 0, false, false, Oldest(c.ring), c.lastSeq);
    var ring := c.ring;
    if q.after > 0 {
      var start := 0;
      while start < |ring| && ring[start].number <= q.after
        invariant 0 <= start <= |ring|
        invariant forall i | 0 <= i < start :: ring[i].number <= q.after
      {
        start := start + 1;
      }
      var end := start + q.limit;
      if end > |ring| { end := |ring|; }
      page := page.(messages := ring[start..end], hasMore := end < |ring|,
                    gap := if |ring| == 0 then q.after < c.lastSeq else q.after + 1 < page.oldest);
      ForwardSlice(c, q, start, end);
      GapIsMissed(c, q.after);
    } else if q.before > 0 {
      var end := 0;
      while end < |ring| && ring[end].number < q.before
        invariant 0 <= end <= |ring|
        invariant forall i | 0 <= i < end :: ring[i].number < q.before
      {
        end := end + 1;
      }
      var start := end - q.limit;
      if start < 0 { start := 0; }
      page := page.(messages := ring[start..end], hasMore := start > 0);
      BackwardSlice(c, q, start, end);
    } else {
      var start := |ring| - q.limit;
      if start < 0 { start := 0; }
      page := page.(messages := ring[start..], hasMore := start > 0);
      NewestSlice(c, q, start);
    }
    if |page.messages| > 0 {
      page := page.(next := page.messages[|page.messages| - 1].number, prev := page.messages[0].number);
    } else if q.after > 0 {
      page := page.(next := q.after);
    } else {
      page := page.(next := c.lastSeq);
    }
  }

  /** History: a cursor beyond anything issued is refused rather than called up to date. */
  method History(c: Channel, q: Query) returns (result: Result)
    requires Consecutive(c)
    ensures result == Failure(CursorInvalid) <==>
      (q.after > 0 && q.before > 0) || (0 < q.limit <= MAX_PAGE_SIZE && q.after > c.lastSeq)
    ensures result == Failure(RangeInvalid) <==>
      !(q.after > 0 && q.before > 0) && (q.limit <= 0 || q.limit > MAX_PAGE_SIZE)
    ensures result.Success? ==> q.limit > 0 && IsPage(c, q, result.page)
  {
    var invalid := Validate(q);
    if invalid.Some? { return Failure(invalid.value); }
    if q.after > c.lastSeq { return Failure(CursorInvalid); }
    var page := PageOf(c, q);
    return Success(page);
  }

  // ---------- a page as a value, for chains and runs ----------

  /** The page of a query; every page the scan returns is this one. */
  ghost function ThePage(c: Channel, q: Query): (page: Page)
    requires q.limit > 0
    ensures IsPage(c, q, page)
  {
    var messages := Selected(c, q);
    var next := if messages != [] then messages[|messages| - 1].number else if q.after > 0 then q.after else c.lastSeq;
    Page(messages, next, if messages == [] then 0 else messages[0].number, |Eligible(c, q)| > q.limit,
         q.after > 0 && Missed(c, q.after), Oldest(c.ring), c.lastSeq)
  }

  lemma PagesAreUnique(c: Channel, q: Query, page: Page)
    requires q.limit > 0 && IsPage(c, q, page)
    ensures page == ThePage(c, q)
  {}

  /** A forward page by positions in the ring. */
  lemma ForwardPage(c: Channel, after: nat, limit: nat)
    requires Consecutive(c) && after > 0 && limit > 0
    ensures var page, start := ThePage(c, Query(after, 0, limit)), CutAfter(c, after);
      var end := Min(start + limit, |c.ring|);
      && page.messages == c.ring[start..end]
      && (page.hasMore <==> end < |c.ring|)
      && page.next == (if start == end then after else c.lastSeq - |c.ring| + end)
      && (page.gap <==> after + |c.ring| < c.lastSeq)
  {
    hide Newer, Missed;
    NewerFromCut(c, after);
    MissedIffBeforeOldest(c, after);
  }

  /** A scrollback page by positions in the ring. */
  lemma BackPage(c: Channel, before: nat, limit: nat)
    requires Consecutive(c) && before > 0 && limit > 0
    ensures var page, end := ThePage(c, Query(0, before, limit)), CutAfter(c, before - 1);
      var start := if end < limit then 0 else end - limit;
      && page.messages == c.ring[start..end]
      && (page.hasMore <==> start > 0)
      && (start > 0 ==> page.prev == c.lastSeq - |c.ring| + 1 + start && 0 < page.prev < before)
  {
    hide Older, Missed;
    OlderToCut(c, before);
  }

  // ---------- chains over an unchanged channel ----------

  /** Scrollback: page, then the pages before it while there are more. */
  ghost function BackChain(c: Channel, before: nat, limit: nat): seq<Message>
    requires Consecutive(c) && before > 0 && limit > 0
    decreases before
  {
    var page := ThePage(c, Query(0, before, limit));
    BackPage(c, before, limit);
    if page.hasMore then BackChain(c, page.prev, limit) + page.messages else page.messages
  }

  /** Chaining BeforeSeq with PrevCursor yields every retained message below the start exactly
      once, and ends when HasMore is false. */
  lemma {:induction false} BackChainIsEverythingBefore(c: Channel, before: nat, limit: nat)
    requires Consecutive(c) && before > 0 && limit > 0
    ensures BackChain(c, before, limit) == Older(c.ring, before)
    decreases before
  {
    hide ThePage, IsPage, Selected, Eligible, Older, Consecutive;
    var page := ThePage(c, Query(0, before, limit));
    BackPage(c, before, limit);
    OlderToCut(c, before);
    if page.hasMore {
      BackChainIsEverythingBefore(c, page.prev, limit);
      OlderToCut(c, page.prev);
      var end := CutAfter(c, before - 1);
      assert CutAfter(c, page.prev - 1) == end - limit;
      assert c.ring[..end - limit] + c.ring[end - limit..end] == c.ring[..end];
    }
  }

  ghost function ForwardChain(c: Channel, after: nat, limit: nat): seq<Message>
    requires Consecutive(c) && after > 0 && limit > 0
    decreases c.lastSeq - after
  {
    var page := ThePage(c, Query(after, 0, limit));
    ForwardPage(c, after, limit);
    if page.hasMore then page.messages + ForwardChain(c, page.next, limit) else page.messages
  }

  /** A forward chain from a cursor yields exactly the retained messages after it. */
  lemma {:induction false} ForwardChainIsEverythingAfter(c: Channel, after: nat, limit: nat)
    requires Consecutive(c) && after > 0 && limit > 0
    ensures ForwardChain(c, after, limit) == Newer(c.ring, after)
    decreases c.lastSeq - after
  {
    hide ThePage, IsPage, Selected, Eligible, Missed, Newer, Consecutive;
    var page := ThePage(c, Query(after, 0, limit));
    ForwardPage(c, after, limit);
    NewerFromCut(c, after);
    if page.hasMore {
      ForwardChainIsEverythingAfter(c, page.next, limit);
      NewerFromCut(c, page.next);
      var start := CutAfter(c, after);
      assert CutAfter(c, page.next) == start + limit;
      assert c.ring[start..start + limit] + c.ring[start + limit..] == c.ring[start..];
    }
  }

  /** Opening with no cursor and scrolling back reads the whole retained ring. */
  lemma OpeningThenBackIsTheRing(c: Channel, limit: nat)
    requires Consecutive(c) && limit > 0
    ensures var page := ThePage(c, Query(0, 0, limit));
      && (page.hasMore ==> page.prev > 0)
      && c.ring == if page.hasMore then BackChain(c, page.prev, limit) + page.messages else page.messages
  {
    hide ThePage, IsPage, Selected, Eligible, BackChain, Older, Missed, Consecutive;
    var page := ThePage(c, Query(0, 0, limit));
    NewestPage(c, limit);
    if page.hasMore {
      var cut := |c.ring| - limit;
      BackChainIsEverythingBefore(c, page.prev, limit);
      OlderToCut(c, page.prev);
      assert c.ring[..cut] + c.ring[cut..] == c.ring;
    }
  }

  /** The page without a cursor by positions in the ring. */
  lemma NewestPage(c: Channel, limit: nat)
    requires Consecutive(c) && limit > 0
    ensures var page, cut := ThePage(c, Query(0, 0, limit)), |c.ring| - limit;
      && (page.hasMore <==> cut > 0)
      && page.messages == (if cut > 0 then c.ring[cut..] else c.ring)
      && (page.hasMore ==> page.prev > 0 && CutAfter(c, page.prev - 1) == cut)
  {
    var page := ThePage(c, Query(0, 0, limit));
    assert page.messages == Last(c.ring, limit);
  }

  // ---------- a reader among writers ----------

  /** A reader that keeps the cursor it was given last, among appends, evictions and prunes. */
  datatype Reader = Reader(history: History, cursor: nat, received: seq<Message>, gapped: bool)

  datatype Event = Write(action: Action) | Read(limit: nat)

  ghost function Step(r: Reader, e: Event, retain: nat): Reader
    requires e.Read? ==> e.limit > 0
  {
    match e
    case Write(a) => r.(history := ChatState.Step(r.history, a, retain))
    case Read(limit) =>
      var page := ThePage(r.history.channel, Query(r.cursor, 0, limit));
      Reader(r.history, page.next, r.received + page.messages, r.gapped || page.gap)
  }

  predicate LimitsOk(events: seq<Event>) { forall e | e in events :: e.Read? ==> 0 < e.limit <= MAX_PAGE_SIZE }

  ghost function Run(r: Reader, events: seq<Event>, retain: nat): Reader
    requires LimitsOk(events)
    decreases |events|
  {
    if events == [] then r
    else
      assert events[0] in events;
      Run(Step(r, events[0], retain), events[1..], retain)
  }

  ghost predicate Ascending(ms: seq<Message>) { forall i, j | 0 <= i < j < |ms| :: ms[i].number < ms[j].number }

  /** Everything received was stored, lies between the start and the cursor, and is in strictly
      ascending order; with no gap reported it is everything stored in between. */
  ghost predicate ReaderOk(r: Reader, start: nat, retain: nat)
  {
    && HistoryOk(r.history, retain)
    && 0 < start <= r.cursor <= r.history.channel.lastSeq
    && Ascending(r.received)
    && (forall m | m in r.received :: start < m.number <= r.cursor && m == r.history.log[m.number - 1])
    && (!r.gapped ==> r.received == r.history.log[start..r.cursor])
  }

  lemma WriteKeepsReader(r: Reader, a: Action, start: nat, retain: nat)
    requires RetainOk(retain) && ReaderOk(r, start, retain)
    ensures ReaderOk(Step(r, Write(a), retain), start, retain)
  {
    hide HistoryOk, ChatState.Step, Ascending;
    StepKeepsHistory(r.history, a, retain);
    LongerHistoryKeepsReader(r, ChatState.Step(r.history, a, retain), start, retain);
  }

  lemma LongerHistoryKeepsReader(r: Reader, after: History, start: nat, retain: nat)
    requires ReaderOk(r, start, retain) && HistoryOk(after, retain) && r.history.log <= after.log
    ensures ReaderOk(r.(history := after), start, retain)
  {
    hide HistoryOk, Ascending;
    LogIsAsLong(r.history, retain);
    LogIsAsLong(after, retain);
    assert after.log[start..r.cursor] == r.history.log[start..r.cursor];
  }

  lemma LogIsAsLong(h: History, retain: nat)
    requires HistoryOk(h, retain)
    ensures |h.log| == h.channel.lastSeq
  {}

  lemma HistoryLength(h: History, retain: nat)
    requires HistoryOk(h, retain)
    ensures |h.log| == h.channel.lastSeq && Consecutive(h.channel) && Numbered(h.log) && IsTail(h.channel.ring, h.log)
  {}

  /** Where the stretch of log that a forward page reads begins: at the cursor when there is
      no gap, at the oldest retained message otherwise. */
  function StretchStart(c: Channel, cursor: nat): (low: nat)
    requires |c.ring| <= c.lastSeq && cursor <= c.lastSeq
    ensures cursor <= low <= c.lastSeq
    ensures cursor + |c.ring| >= c.lastSeq ==> low == cursor
  {
    CutBounds(c, cursor);
    c.lastSeq - |c.ring| + CutAfter(c, cursor)
  }

  /** A forward page is a stretch of the log. */
  lemma PageIsStretch(h: History, cursor: nat, limit: nat, retain: nat)
    requires HistoryOk(h, retain) && 0 < cursor <= h.channel.lastSeq && limit > 0
    ensures |h.channel.ring| <= h.channel.lastSeq == |h.log|
    ensures var page, low := ThePage(h.channel, Query(cursor, 0, limit)), StretchStart(h.channel, cursor);
      && low + |page.messages| <= |h.log|
      && page.messages == h.log[low..low + |page.messages|]
      && page.next == (if page.messages == [] then cursor else low + |page.messages|)
  {
    hide HistoryOk, ThePage, IsPage, Selected, Eligible, Missed, Numbered, Consecutive, IsTail;
    HistoryLength(h, retain);
    var c, page := h.channel, ThePage(h.channel, Query(cursor, 0, limit));
    ForwardPage(c, cursor, limit);
    TailLength(c.ring, h.log);
    var start := CutAfter(c, cursor);
    var end := Min(start + limit, |c.ring|);
    StretchOfRing(c.ring, h.log, start, end, page.messages);
  }

  lemma GapIsAfterStart(c: Channel, cursor: nat, limit: nat)
    requires Consecutive(c) && 0 < cursor <= c.lastSeq && limit > 0
    ensures !ThePage(c, Query(cursor, 0, limit)).gap ==> StretchStart(c, cursor) == cursor
  {
    ForwardPage(c, cursor, limit);
  }

  /** The cut is at the cursor, or at the oldest retained message when that is later. */
  lemma CutBounds(c: Channel, n: nat)
    requires |c.ring| <= c.lastSeq && n <= c.lastSeq
    ensures var at := c.lastSeq - |c.ring| + CutAfter(c, n);
      n <= at <= c.lastSeq && (n + |c.ring| >= c.lastSeq ==> at == n)
  {}

  lemma StretchOfRing(ring: seq<Message>, log: seq<Message>, start: nat, end: nat, messages: seq<Message>)
    requires IsTail(ring, log) && start <= end <= |ring| && messages == ring[start..end]
    ensures var shift := |log| - |ring|;
      messages == log[shift + start..shift + end] && (messages == [] <==> start == end)
  {}

  lemma TailLength(ring: seq<Message>, log: seq<Message>)
    requires IsTail(ring, log)
    ensures |ring| <= |log|
  {}

  /** Taking one more stretch of the log keeps what has been received in order. */
  lemma StretchExtends(log: seq<Message>, received: seq<Message>, start: nat, cursor: nat, low: nat, next: nat)
    requires Numbered(log) && Ascending(received)
    requires start <= cursor <= low < next <= |log|
    requires forall m | m in received :: start < m.number <= cursor && m == log[m.number - 1]
    ensures var more := received + log[low..next];
      && Ascending(more)
      && forall m | m in more :: start < m.number <= next && m == log[m.number - 1]
  {
    var more := received + log[low..next];
    forall i | 0 <= i < |more|
      ensures start < more[i].number <= next && more[i] == log[more[i].number - 1]
      ensures i >= |received| ==> more[i].number == low + (i - |received|) + 1
    {
      if i < |received| {
        assert more[i] in received;
      } else {
        assert more[i] == log[low + (i - |received|)];
      }
    }
    forall i, j | 0 <= i < j < |more|
      ensures more[i].number < more[j].number
    {
      if i < |received| { assert more[i] in received; }
    }
  }

  lemma ReadKeepsReader(r: Reader, limit: nat, start: nat, retain: nat)
    requires ReaderOk(r, start, retain) && limit > 0
    ensures ReaderOk(Step(r, Read(limit), retain), start, retain)
  {
    hide HistoryOk, ThePage, IsPage, Selected, Eligible, Missed, Ascending, Numbered, Consecutive, IsTail, StretchStart;
    PageIsStretch(r.history, r.cursor, limit, retain);
    HistoryLength(r.history, retain);
    GapIsAfterStart(r.history.channel, r.cursor, limit);
    var low := StretchStart(r.history.channel, r.cursor);
    var page := ThePage(r.history.channel, Query(r.cursor, 0, limit));
    if page.messages == [] {
      assert r.received + page.messages == r.received;
    } else {
      StretchExtends(r.history.log, r.received, start, r.cursor, low, page.next);
      if !r.gapped && !page.gap { JoinStretches(r.history.log, start, r.cursor, page.next); }
    }
  }

  lemma JoinStretches(log: seq<Message>, a: nat, b: nat, c: nat)
    requires a <= b <= c <= |log|
    ensures log[a..b] + log[b..c] == log[a..c]
  {}

  lemma {:induction false} RunKeepsReader(r: Reader, events: seq<Event>, start: nat, retain: nat)
    requires RetainOk(retain) && LimitsOk(events) && ReaderOk(r, start, retain)
    ensures ReaderOk(Run(r, events, retain), start, retain)
    decreases |events|
  {
    hide ReaderOk, Step;
    if events != [] {
      var e := events[0];
      assert e in events;
      match e {
        case Write(a) => WriteKeepsReader(r, a, start, retain);
        case Read(limit) => ReadKeepsReader(r, limit, start, retain);
      }
      RunKeepsReader(Step(r, e, retain), events[1..], start, retain);
    }
  }

  /** A reader that starts at a positive cursor of any reachable channel and always passes on
      NextCursor never gets a number twice or out of order, whatever is written meanwhile; as
      long as no page says Gap it has every message from start + 1 to its cursor, as stored. */
  lemma ReaderMissesNothingUnlessTold(before: seq<Action>, start: nat, events: seq<Event>, retain: nat)
    requires RetainOk(retain) && LimitsOk(events)
    requires 0 < start <= ChatState.Run(BEGINNING, before, retain).channel.lastSeq
    ensures var r := Run(Reader(ChatState.Run(BEGINNING, before, retain), start, [], false), events, retain);
      && Ascending(r.received)
      && start <= r.cursor <= |r.history.log|
      && (forall m | m in r.received :: start < m.number <= r.cursor && m == r.history.log[m.number - 1])
      && (!r.gapped ==> r.received == r.history.log[start..r.cursor])
  {
    BeginningOk(retain);
    RunKeepsHistory(BEGINNING, before, retain);
    var h := ChatState.Run(BEGINNING, before, retain);
    hide ChatState.Run, HistoryOk;
    HistoryLength(h, retain);
    var r := Reader(h, start, [], false);
    assert h.log[start..start] == [];
    RunKeepsReader(r, events, start, retain);
    HistoryLength(Run(r, events, retain).history, retain);
  }

  /** Cursor zero is not "from the start": that page is the whole history exactly when nothing
      was evicted and the history fits one page, and it never says Gap. */
  lemma CursorZeroIsTheNewestPage(h: History, limit: nat, retain: nat)
    requires HistoryOk(h, retain) && limit > 0
    ensures var page := ThePage(h.channel, Query(0, 0, limit));
      && !page.gap
      && (page.messages == h.log <==> h.channel.evicted == 0 && |h.log| <= limit)
  {
    HistoryLength(h, retain);
    var c := h.channel;
    assert c.lastSeq == c.evicted + |c.ring|;
    if c.evicted == 0 { assert h.log[0..] == h.log; }
  }
}
