/** service/platform: the paid order, its states, and every atomic update of it. */
module PlatformOrder {
  import opened Clock
  import opened Text

  const MAX_ERROR_BYTES := 512
  const MAX_PAYLOAD_BYTES: nat := 16 * 1024
  const MAX_NOTE_BYTES := 512
  const MAX_ID_BYTES := 128
  const MAX_BACKOFF_MULTIPLIER := 8

  datatype State = Reserved | Delivered | Exhausted | Settled

  /** What was bought; two callbacks for one order id must agree on all of it. */
  datatype Purchase = Purchase(orderID: string, playerID: int, channel: string, productID: string,
                               amountMinor: int, currency: string)

  datatype Order = Order(purchase: Purchase, state: State, attempts: int, maxAttempts: int,
                         nextAttemptAt: int, lastError: string, paidAt: int, createdAt: int,
                         deliveredAt: int, updatedAt: int, reopens: int, adminNote: string, adminActionAt: int)
  {
    predicate Terminal() { state == Delivered || state == Exhausted || state == Settled }

    predicate Due(nowUnix: int) { !Terminal() && (nextAttemptAt == 0 || nowUnix >= nextAttemptAt) }
  }

  datatype PlatformError =
    | RequestInvalid | SignatureInvalid | OrderInvalid | OrderMismatch | DeliveryHeld | DeliveryFailed | DeliveryExpired
    | NotResolvable | NoteRequired | OrderSettled | Conflict

  /** Order.Validate. */
  predicate ValidOrder(o: Order)
  {
    && TrimSpace(o.purchase.orderID) != "" && |o.purchase.orderID| <= MAX_ID_BYTES
    && o.purchase.playerID > 0
    && TrimSpace(o.purchase.productID) != "" && |o.purchase.productID| <= MAX_ID_BYTES
    && o.purchase.amountMinor > 0
    && o.maxAttempts > 0
  }

  function Backoff(base: int, attempt: int): int
  {
    var least := if attempt < 1 then 1 else attempt;
    base * (if least > MAX_BACKOFF_MULTIPLIER then MAX_BACKOFF_MULTIPLIER else least)
  }

  function Truncate(text: string, limit: nat): string { if |text| <= limit then text else text[..limit] }

  // ---------- the updates, on values ----------

  datatype ClaimOutcome = AlreadyDelivered | AlreadyExhausted | AlreadySettled | Held | JustExhausted | Claimed

  /** The compare-and-set that gates an attempt. */
  function Claim(o: Order, now: int, backoff: int): (Order, ClaimOutcome)
  {
    if o.state == Delivered then (o, AlreadyDelivered)
    else if o.state == Exhausted then (o, AlreadyExhausted)
    else if o.state == Settled then (o, AlreadySettled)
    else if !o.Due(Unix(now)) then (o, Held)
    else if o.attempts >= o.maxAttempts then
      (o.(state := Exhausted, nextAttemptAt := 0, updatedAt := Unix(now)), JustExhausted)
    else
      (o.(attempts := o.attempts + 1, nextAttemptAt := Unix(now + Backoff(backoff, o.attempts + 1)),
          updatedAt := Unix(now)), Claimed)
  }

  /** The deliverer answered that the goods are granted. */
  function Succeed(o: Order, nowUnix: int): Order
  {
    if o.state == Delivered then o
    else o.(state := Delivered, deliveredAt := nowUnix, updatedAt := nowUnix, nextAttemptAt := 0, lastError := "")
  }

  /** The deliverer failed; the last budgeted failure exhausts the order. */
  function Fail(o: Order, cause: string, nowUnix: int): Order
  {
    if o.state == Delivered then o
    else
      var noted := o.(lastError := Truncate(cause, MAX_ERROR_BYTES), updatedAt := nowUnix);
      if o.attempts >= o.maxAttempts then noted.(state := Exhausted, nextAttemptAt := 0) else noted
  }

  function Reopen(o: Order, note: string, nowUnix: int): Order
    requires o.state == Exhausted
  {
    o.(state := Reserved, attempts := 0, nextAttemptAt := 0, lastError := "", reopens := o.reopens + 1,
       adminNote := note, adminActionAt := nowUnix, updatedAt := nowUnix)
  }

  function Settle(o: Order, note: string, nowUnix: int): Order
    requires o.state == Exhausted
  {
    o.(state := Settled, nextAttemptAt := 0, adminNote := note, adminActionAt := nowUnix, updatedAt := nowUnix)
  }

  function NewOrder(p: Purchase, paidAt: int, now: int, maxAttempts: int): Order
  {
    Order(p, Reserved, 0, maxAttempts, 0, "", if paidAt == 0 then Unix(now) else paidAt, Unix(now),
          0, Unix(now), 0, "", 0)
  }

  function ValidateNote(note: string): Option<PlatformError>
  {
    var trimmed := TrimSpace(note);
    if trimmed == "" || |trimmed| > MAX_NOTE_BYTES then Some(NoteRequired) else None
  }

  // ---------- one whole attempt, undisturbed ----------

  /** What the deliverer answers. */
  datatype Answer = Granted | Refused(cause: string)

  datatype Receipt = Receipt(order: Order, replayed: bool, delivered: bool)

  /** A receipt, an error, or both: the error says what happened to the order in the receipt. */
  datatype Result = Result(receipt: Option<Receipt>, error: Option<PlatformError>)

  /** What others did to the order while the deliverer was at work. */
  datatype Meanwhile = Nothing | Became(order: Order) | Vanished

  function Found(claimed: Order, meanwhile: Meanwhile): Option<Order>
  {
    match meanwhile
    case Nothing => Some(claimed)
    case Became(order) => Some(order)
    case Vanished => None
  }

  /** The update that records the deliverer's answer on the order as it is found then; an
      order delivered in the meantime is left as it is. */
  function Recorded(found: Option<Order>, answer: Answer, nowUnix: int): (Option<Order>, Result)
  {
    match (found, answer)
    case (None, _) => (None, Result(None, Some(Conflict)))
    case (Some(o), Granted) =>
      var done := Succeed(o, nowUnix);
      (Some(done), Result(Some(Receipt(done, o.state == Delivered, true)), None))
    case (Some(o), Refused(cause)) =>
      var failed := Fail(o, cause, nowUnix);
      (Some(failed), Result(Some(Receipt(failed, false, false)),
                            Some(if failed.state == Exhausted then DeliveryExpired else DeliveryFailed)))
  }

  /** What an attempt answers that was not claimed. */
  function NotClaimed(outcome: ClaimOutcome, o: Order): Result
    requires !outcome.Claimed?
  {
    match outcome
    case AlreadySettled => Result(Some(Receipt(o, false, false)), Some(OrderSettled))
    case AlreadyDelivered => Result(Some(Receipt(o, true, true)), None)
    case AlreadyExhausted => Result(Some(Receipt(o, false, false)), Some(DeliveryExpired))
    case JustExhausted => Result(Some(Receipt(o, false, false)), Some(DeliveryExpired))
    case Held => Result(Some(Receipt(o, false, false)), Some(DeliveryHeld))
  }

  function AttemptAmid(o: Order, now: int, backoff: int, answer: Answer, meanwhile: Meanwhile)
    : (after: (Option<Order>, Result))
    ensures meanwhile.Nothing? ==> after.0.Some?
  {
    var (claimed, outcome) := Claim(o, now, backoff);
    if outcome.Claimed? then Recorded(Found(claimed, meanwhile), answer, Unix(now))
    else (Some(claimed), NotClaimed(outcome, claimed))
  }

  lemma DeliveredIsReplayed(o: Order, now: int, backoff: int, answer: Answer, meanwhile: Meanwhile)
    requires o.state == Delivered
    ensures AttemptAmid(o, now, backoff, answer, meanwhile) == (Some(o), Result(Some(Receipt(o, true, true)), None))
    ensures !Claim(o, now, backoff).1.Claimed?
  {}

  lemma NoErrorHasReceipt(o: Order, now: int, backoff: int, answer: Answer, meanwhile: Meanwhile)
    ensures var r := AttemptAmid(o, now, backoff, answer, meanwhile).1;
      && (r.error.None? ==> r.receipt.Some?)
      && (r.error.Some? ==>
            r.error.value in {OrderSettled, DeliveryExpired, DeliveryHeld, DeliveryFailed, Conflict})
  {}

  /** What an attempt does that takes no attempt from the budget: a resolved order answers what
      it is, one whose time has not come is held, and one whose budget is spent is exhausted. */
  lemma TurnedAway(o: Order, now: int, backoff: int, answer: Answer, meanwhile: Meanwhile)
    ensures var (after, r) := AttemptAmid(o, now, backoff, answer, meanwhile);
      && (o.state == Delivered ==> after == Some(o) && r == Result(Some(Receipt(o, true, true)), None))
      && (o.state == Exhausted ==>
            after == Some(o) && r == Result(Some(Receipt(o, false, false)), Some(DeliveryExpired)))
      && (o.state == Settled ==> after == Some(o) && r == Result(Some(Receipt(o, false, false)), Some(OrderSettled)))
      && (o.state == Reserved && o.nextAttemptAt != 0 && Unix(now) < o.nextAttemptAt ==>
            after == Some(o) && r == Result(Some(Receipt(o, false, false)), Some(DeliveryHeld)))
      && (o.state == Reserved && (o.nextAttemptAt == 0 || o.nextAttemptAt <= Unix(now))
          && o.attempts >= o.maxAttempts ==>
            var spent := o.(state := Exhausted, nextAttemptAt := 0, updatedAt := Unix(now));
            after == Some(spent) && r == Result(Some(Receipt(spent, false, false)), Some(DeliveryExpired)))
    ensures Claim(o, now, backoff).1.Claimed? <==>
      o.state == Reserved && (o.nextAttemptAt == 0 || o.nextAttemptAt <= Unix(now)) && o.attempts < o.maxAttempts
  {}

  /** What an attempt does that is claimed: it takes one from the budget and, left alone, is
      delivered, waits for the backoff, or exhausts the order with its last attempt. The
      backoff grows with the attempts up to eight times the base. */
  lemma ClaimedAttempt(o: Order, now: int, backoff: int, answer: Answer)
    requires o.state == Reserved && (o.nextAttemptAt == 0 || o.nextAttemptAt <= Unix(now))
    requires 0 <= o.attempts < o.maxAttempts
    ensures var (after, r) := AttemptAmid(o, now, backoff, answer, Nothing);
      var tries := o.attempts + 1;
      && after.Some? && r.receipt == Some(Receipt(after.value, false, answer.Granted?))
      && after.value.purchase == o.purchase && after.value.attempts == tries && after.value.updatedAt == Unix(now)
      && after.value.maxAttempts == o.maxAttempts && after.value.reopens == o.reopens
      && after.value.paidAt == o.paidAt && after.value.createdAt == o.createdAt
      && (answer.Granted? ==>
            && r.error == None && after.value.state == Delivered && after.value.deliveredAt == Unix(now)
            && after.value.nextAttemptAt == 0 && after.value.lastError == "")
      && (answer.Refused? ==>
            && after.value.deliveredAt == o.deliveredAt
            && after.value.lastError == Truncate(answer.cause, MAX_ERROR_BYTES)
            && (tries == o.maxAttempts ==>
                  r.error == Some(DeliveryExpired) && after.value.state == Exhausted && after.value.nextAttemptAt == 0)
            && (tries < o.maxAttempts ==>
                  && r.error == Some(DeliveryFailed) && after.value.state == Reserved
                  && (tries <= 8 ==> after.value.nextAttemptAt == Unix(now + backoff * tries))
                  && (tries >= 8 ==> after.value.nextAttemptAt == Unix(now + backoff * 8))))
  {}

  /** What others did in the meantime decides what is recorded: on a vanished order nothing, a
      delivered one stays, and any other takes the answer. */
  lemma RecordedMeaning(found: Option<Order>, answer: Answer, nowUnix: int)
    ensures var (after, r) := Recorded(found, answer, nowUnix);
      && (found.None? ==> after.None? && r == Result(None, Some(Conflict)))
      && (found.Some? && found.value.state == Delivered ==>
            && after == found
            && (answer.Granted? ==> r == Result(Some(Receipt(found.value, true, true)), None))
            && (answer.Refused? ==> r == Result(Some(Receipt(found.value, false, false)), Some(DeliveryFailed))))
      && (found.Some? && found.value.state != Delivered && answer.Granted? ==>
            && after.Some? && r == Result(Some(Receipt(after.value, false, true)), None)
            && after.value == found.value.(state := Delivered, deliveredAt := nowUnix, updatedAt := nowUnix,
                                           nextAttemptAt := 0, lastError := ""))
      && (found.Some? && found.value.state != Delivered && answer.Refused? ==>
            && after.Some? && after.value.attempts == found.value.attempts && after.value.updatedAt == nowUnix
            && after.value.lastError == Truncate(answer.cause, MAX_ERROR_BYTES)
            && (found.value.attempts >= found.value.maxAttempts ==>
                  after.value.state == Exhausted && after.value.nextAttemptAt == 0)
            && (found.value.attempts < found.value.maxAttempts ==>
                  after.value.state == found.value.state && after.value.nextAttemptAt == found.value.nextAttemptAt)
            && r.error == Some(if after.value.state == Exhausted then DeliveryExpired else DeliveryFailed))
  {}

  /** An attempt that was claimed records its answer on what others left of the order. */
  lemma RecordsOnWhatIsThere(o: Order, now: int, backoff: int, answer: Answer, b: Order)
    requires Claim(o, now, backoff).1.Claimed?
    ensures AttemptAmid(o, now, backoff, answer, Became(b)) == Recorded(Some(b), answer, Unix(now))
    ensures AttemptAmid(o, now, backoff, answer, Vanished) == Recorded(None, answer, Unix(now))
    ensures AttemptAmid(o, now, backoff, answer, Nothing) == Recorded(Some(Claim(o, now, backoff).0), answer, Unix(now))
  {}

  lemma TruncateMeaning(text: string, limit: nat)
    ensures Truncate(text, limit) <= text && |Truncate(text, limit)| <= limit
    ensures |text| <= limit ==> Truncate(text, limit) == text
    ensures |text| > limit ==> |Truncate(text, limit)| == limit
  {}

  /** An attempt with no other actor in between. */
  function Attempt(o: Order, now: int, backoff: int, answer: Answer): (Order, Result)
  {
    var (after, result) := AttemptAmid(o, now, backoff, answer, Nothing);
    (after.value, result)
  }

  /** An order id's record, or none. */
  function Put(orders: map<string, Order>, id: string, o: Option<Order>): map<string, Order>
  {
    if o.Some? then orders[id := o.value] else orders - {id}
  }

  lemma PutAgain(orders: map<string, Order>, id: string, first: Option<Order>, second: Option<Order>)
    ensures Put(Put(orders, id, first), id, second) == Put(orders, id, second)
    ensures id in Put(orders, id, first) <==> first.Some?
    ensures first.Some? ==> Put(orders, id, first)[id] == first.value
  {}

  /** A callback as it arrives: what verification and parsing make of its bytes. */
  datatype Callback = Callback(size: nat, signed: bool, payload: Option<Payload>)

  datatype Payload = Payload(purchase: Purchase, paidAt: int)

  /** The refusals that come before the order is looked at. */
  function Screen(c: Callback): Option<PlatformError>
  {
    if c.size == 0 || c.size > MAX_PAYLOAD_BYTES then Some(RequestInvalid)
    else if !c.signed then Some(SignatureInvalid)
    else if c.payload.None? then Some(RequestInvalid)
    else None
  }

  // ---------- the order store and the service over it ----------

  class Service {
    var orders: map<string, Order>
    /** How many times the deliverer was called, per order. */
    var calls: map<string, nat>
    const backoff: int
    const maxAttempts: int

    constructor (backoff: int, maxAttempts: int)
      ensures orders == map[] && calls == map[]
      ensures this.backoff == backoff && this.maxAttempts == maxAttempts
    {
      orders, calls := map[], map[];
      this.backoff, this.maxAttempts := backoff, maxAttempts;
    }

    function Calls(id: string): nat
      reads this
    {
      if id in calls then calls[id] else 0
    }

    /** Claim, deliver, record, with whatever others did to the order while the deliverer was
        at work. The deliverer is called exactly when the claim took an attempt. */
    method AttemptDelivery(id: string, now: int, answer: Answer, meanwhile: Meanwhile) returns (result: Result)
      modifies this
      ensures TrimSpace(id) == "" ==>
        result == Result(None, Some(RequestInvalid)) && orders == old(orders) && calls == old(calls)
      ensures forall d | d != id :: Calls(d) == old(Calls(d))
      ensures TrimSpace(id) != "" && id !in old(orders) ==>
        result == Result(None, Some(OrderInvalid)) && orders == old(orders) && calls == old(calls)
      ensures TrimSpace(id) != "" && id in old(orders) ==>
        var (after, r) := AttemptAmid(old(orders)[id], now, backoff, answer, meanwhile);
        && result == r && orders == Put(old(orders), id, after)
        && Calls(id) == old(Calls(id)) + if Claim(old(orders)[id], now, backoff).1.Claimed? then 1 else 0
    {
      hide TrimSpace, Recorded, Claim, Put;
      if TrimSpace(id) == "" { return Result(None, Some(RequestInvalid)); }
      if id !in orders { return Result(None, Some(OrderInvalid)); }
      var (claimed, outcome) := Claim(orders[id], now, backoff);
      orders := Put(orders, id, Some(claimed));
      if !outcome.Claimed? { return NotClaimed(outcome, claimed); }
      calls := calls[id := Calls(id) + 1];
      PutAgain(orders, id, Found(claimed, meanwhile), Recorded(Found(claimed, meanwhile), answer, Unix(now)).0);
      PutAgain(old(orders), id, Some(claimed), Recorded(Found(claimed, meanwhile), answer, Unix(now)).0);
      orders := Put(orders, id, Found(claimed, meanwhile));
      result := RecordAnswer(id, answer, Unix(now));
    }

    /** The second update of an attempt, on the order as it stands then. */
    method RecordAnswer(id: string, answer: Answer, nowUnix: int) returns (result: Result)
      modifies this`orders
      ensures var (after, r) := Recorded(if id in old(orders) then Some(old(orders)[id]) else None, answer, nowUnix);
        result == r && orders == Put(old(orders), id, after)
    {
      if id !in orders { return Result(None, Some(Conflict)); }
      if answer.Refused? {
        var failed := RecordFailure(id, answer.cause, nowUnix);
        return Result(Some(Receipt(failed, false, false)),
                      Some(if failed.state == Exhausted then DeliveryExpired else DeliveryFailed));
      }
      if orders[id].state == Delivered {
        assert orders == orders[id := orders[id]];
        return Result(Some(Receipt(orders[id], true, true)), None);
      }
      var done := Succeed(orders[id], nowUnix);
      orders := orders[id := done];
      return Result(Some(Receipt(done, false, true)), None);
    }

    /** The cause is recorded, cut to its limit, and a spent budget exhausts the order; a
        delivered order is not touched, and no other order is. */
    method RecordFailure(id: string, cause: string, nowUnix: int) returns (result: Order)
      requires id in orders
      modifies this`orders
      ensures result == Fail(old(orders)[id], cause, nowUnix) && orders == old(orders)[id := result]
      ensures old(orders)[id].state == Delivered ==> orders == old(orders)
      ensures old(orders)[id].state != Delivered ==>
        && result.lastError <= cause && |result.lastError| <= MAX_ERROR_BYTES
        && (|cause| <= MAX_ERROR_BYTES ==> result.lastError == cause)
        && (result.state == Exhausted <==>
              old(orders)[id].attempts >= old(orders)[id].maxAttempts || old(orders)[id].state == Exhausted)
        && result.attempts == old(orders)[id].attempts
    {
      var current := orders[id];
      if current.state == Delivered {
        assert orders == orders[id := current];
        return current;
      }
      current := current.(lastError := Truncate(cause, MAX_ERROR_BYTES), updatedAt := nowUnix);
      if current.attempts >= current.maxAttempts {
        current := current.(state := Exhausted, nextAttemptAt := 0);
      }
      orders := orders[id := current];
      return current;
    }

    /** A callback. An order is recorded by the first verified arrival only; a later one with
        other contents is refused, and one with the same contents drives an attempt unless the
        goods are already granted. Never more than one call of the deliverer. When it vanishes
        says so, the record that refused the creation is gone by the read that follows. */
    method HandleCallback(c: Callback, vanishes: bool, now: int, answer: Answer, meanwhile: Meanwhile)
      returns (result: Result)
      modifies this
      ensures Screen(c).Some? ==>
        result == Result(None, Screen(c)) && orders == old(orders) && calls == old(calls)
      ensures result.error == Some(SignatureInvalid) <==> 0 < c.size <= MAX_PAYLOAD_BYTES && !c.signed
      ensures result.error == Some(RequestInvalid) <==>
        c.size == 0 || c.size > MAX_PAYLOAD_BYTES || (c.signed && c.payload.None?)
      ensures result.error == Some(SignatureInvalid) || result.error == Some(RequestInvalid) ==>
        result.receipt.None? && orders == old(orders) && calls == old(calls)
      ensures orders != old(orders) || calls != old(calls) ==> c.signed && c.payload.Some?
      ensures result.error == Some(OrderInvalid) <==>
        && 0 < c.size <= MAX_PAYLOAD_BYTES && c.signed && c.payload.Some?
        && var p := c.payload.value.purchase;
           || TrimSpace(p.orderID) == "" || |TrimSpace(p.orderID)| > MAX_ID_BYTES || p.playerID <= 0
           || TrimSpace(p.productID) == "" || |TrimSpace(p.productID)| > MAX_ID_BYTES || p.amountMinor <= 0
           || maxAttempts <= 0
      ensures result.error == Some(OrderMismatch) ==> orders == old(orders) && calls == old(calls)
      ensures result.error == Some(OrderMismatch) <==>
        && 0 < c.size <= MAX_PAYLOAD_BYTES && c.signed && c.payload.Some? && result.error != Some(OrderInvalid)
        && !vanishes
        && var p := c.payload.value.purchase;
           && TrimSpace(p.orderID) in old(orders)
           && var known := old(orders)[TrimSpace(p.orderID)].purchase;
              || known.orderID != TrimSpace(p.orderID) || known.playerID != p.playerID || known.channel != p.channel
              || known.productID != TrimSpace(p.productID) || known.amountMinor != p.amountMinor
              || known.currency != p.currency
      ensures result.error != Some(OrderInvalid) && Screen(c).None? && meanwhile == Nothing ==>
        var p := c.payload.value;
        var id := TrimSpace(p.purchase.orderID);
        id !in old(orders) ==>
          && id in orders && orders[id].paidAt == (if p.paidAt == 0 then Unix(now) else p.paidAt)
          && orders[id].purchase == p.purchase.(orderID := id, productID := TrimSpace(p.purchase.productID))
          && orders[id].createdAt == Unix(now) && orders[id].maxAttempts == maxAttempts
          && orders[id].attempts == 1 && orders[id].reopens == 0 && Calls(id) == old(Calls(id)) + 1
          && orders[id].state == if answer.Granted? then Delivered else if maxAttempts == 1 then Exhausted else Reserved
      ensures Screen(c).None? ==>
        var p := c.payload.value.purchase;
        var purchase := p.(orderID := TrimSpace(p.orderID), productID := TrimSpace(p.productID));
        var id, first := purchase.orderID, NewOrder(purchase, c.payload.value.paidAt, now, maxAttempts);
        if !ValidOrder(first) then
          result == Result(None, Some(OrderInvalid)) && orders == old(orders) && calls == old(calls)
        else if id in old(orders) && vanishes then
          result == Result(None, Some(Conflict)) && orders == old(orders) - {id} && calls == old(calls)
        else if id in old(orders) && old(orders)[id].purchase != purchase then
          result == Result(None, Some(OrderMismatch)) && orders == old(orders) && calls == old(calls)
        else
          var before := if id in old(orders) then old(orders)[id] else first;
          var (after, r) := AttemptAmid(before, now, backoff, answer, meanwhile);
          && orders == Put(old(orders), id, after)
          && Calls(id) == old(Calls(id)) + (if Claim(before, now, backoff).1.Claimed? then 1 else 0)
          && result.error == r.error && result.receipt.Some?
          && (r.error.None? ==>
                result.receipt.value == r.receipt.value.(replayed := id in old(orders) || r.receipt.value.replayed))
          && (r.error.Some? ==> result.receipt.value == Receipt(before, id in old(orders), false))
    {
      hide TrimSpace, AttemptAmid, Claim;
      var refused := Screen(c);
      if refused.Some? { return Result(None, refused); }
      var p := c.payload.value.purchase;
      var purchase := p.(orderID := TrimSpace(p.orderID), productID := TrimSpace(p.productID));
      var id := purchase.orderID;
      var order := NewOrder(purchase, c.payload.value.paidAt, now, maxAttempts);
      TrimSpaceTwice(p.orderID);
      TrimSpaceTwice(p.productID);
      if !ValidOrder(order) { return Result(None, Some(OrderInvalid)); }
      NoErrorHasReceipt(if id in orders then orders[id] else order, now, backoff, answer, meanwhile);
      TurnedAway(order, now, backoff, answer, meanwhile);
      ClaimedAttempt(order, now, backoff, answer);
      if id in orders {
        if vanishes { orders := orders - {id}; }
        if id !in orders { return Result(None, Some(Conflict)); }
        var existing := orders[id];
        if existing.purchase != purchase { return Result(None, Some(OrderMismatch)); }
        var receipt := Receipt(existing, true, existing.state == Delivered);
        if receipt.delivered {
          DeliveredIsReplayed(existing, now, backoff, answer, meanwhile);
          assert orders == orders[id := existing];
          return Result(Some(receipt), None);
        }
        var attempt := AttemptDelivery(id, now, answer, meanwhile);
        if attempt.error.Some? { return Result(Some(receipt), attempt.error); }
        return Result(Some(Receipt(attempt.receipt.value.order, true, attempt.receipt.value.delivered)), None);
      }
      orders := orders[id := order];
      var attempt := AttemptDelivery(id, now, answer, meanwhile);
      if attempt.error.Some? { return Result(Some(Receipt(order, false, false)), attempt.error); }
      return attempt;
    }

    /** Only an exhausted order is reopened, with a fresh budget, due at once. */
    method ReopenDelivery(id: string, note: string, now: int) returns (error: Option<PlatformError>)
      modifies this`orders
      ensures error.None? <==> ValidateNote(note).None? && id in old(orders) && old(orders)[id].state == Exhausted
      ensures error.None? ==> orders == old(orders)[id := Reopen(old(orders)[id], TrimSpace(note), Unix(now))]
      ensures error.None? ==>
        orders == old(orders)[id := old(orders)[id].(
            state := Reserved, attempts := 0, nextAttemptAt := 0, lastError := "",
            reopens := old(orders)[id].reopens + 1, adminNote := TrimSpace(note),
            adminActionAt := Unix(now), updatedAt := Unix(now))]
      ensures error == Some(NoteRequired) <==> TrimSpace(note) == "" || |TrimSpace(note)| > MAX_NOTE_BYTES
      ensures error == Some(OrderInvalid) <==>
        TrimSpace(note) != "" && |TrimSpace(note)| <= MAX_NOTE_BYTES && id !in old(orders)
      ensures error.Some? ==> orders == old(orders)
      ensures ValidateNote(note).None? && id in old(orders) && old(orders)[id].state != Exhausted ==>
        error == Some(NotResolvable)
    {
      var invalid := ValidateNote(note);
      if invalid.Some? { return invalid; }
      if id !in orders { return Some(OrderInvalid); }
      if orders[id].state != Exhausted { return Some(NotResolvable); }
      orders := orders[id := Reopen(orders[id], TrimSpace(note), Unix(now))];
      return None;
    }

    /** Only an exhausted order is settled, and settling is not delivering. */
    method SettleOutOfBand(id: string, note: string, now: int) returns (error: Option<PlatformError>)
      modifies this`orders
      ensures error.None? <==> ValidateNote(note).None? && id in old(orders) && old(orders)[id].state == Exhausted
      ensures error.None? ==> orders == old(orders)[id := Settle(old(orders)[id], TrimSpace(note), Unix(now))]
      ensures error.None? ==>
        orders == old(orders)[id := old(orders)[id].(
            state := Settled, nextAttemptAt := 0, adminNote := TrimSpace(note), adminActionAt := Unix(now),
            updatedAt := Unix(now))]
      ensures error == Some(NoteRequired) <==> TrimSpace(note) == "" || |TrimSpace(note)| > MAX_NOTE_BYTES
      ensures error == Some(OrderInvalid) <==>
        TrimSpace(note) != "" && |TrimSpace(note)| <= MAX_NOTE_BYTES && id !in old(orders)
      ensures error.Some? ==> orders == old(orders)
      ensures ValidateNote(note).None? && id in old(orders) && old(orders)[id].state != Exhausted ==>
        error == Some(NotResolvable)
    {
      var invalid := ValidateNote(note);
      if invalid.Some? { return invalid; }
      if id !in orders { return Some(OrderInvalid); }
      if orders[id].state != Exhausted { return Some(NotResolvable); }
      orders := orders[id := Settle(orders[id], TrimSpace(note), Unix(now))];
      return None;
    }
  }
}
