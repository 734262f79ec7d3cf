/** service/account: creating a role across four stores, with every failure undone. */
module AccountCreate {
  import opened Clock
  import opened Text
  import opened VersionStore
  import Directory

  datatype Slot = Slot(accountID: string, serverID: int, playerID: int)

  datatype Role = Role(playerID: int, accountID: string, serverID: int, name: string, createdAt: int, lastLoginAt: int)

  type Claim = Directory.Claim
  type Reservation = Versioned<Directory.Entry>

  // ---------- slot keys ----------

  function FormatNat(n: nat): (s: string)
    ensures s != ""
  {
    if n < 10 then [DigitChar(n)] else FormatNat(n / 10) + [DigitChar(n % 10)]
  }

  /** strconv.FormatInt in base ten. */
  function FormatInt(v: int): string { if v < 0 then "-" + FormatNat(-v) else FormatNat(v) }

  function SlotKey(account: string, server: int): string { account + "@" + FormatInt(server) }

  lemma {:induction false} FormatNatShape(n: nat)
    ensures forall c :: c in FormatNat(n) ==> '0' <= c <= '9'
  {
    if n >= 10 { FormatNatShape(n / 10); }
  }

  lemma {:induction false} FormatNatTells(m: nat, n: nat)
    requires FormatNat(m) == FormatNat(n)
    ensures m == n
  {
    var a, b := FormatNat(m), FormatNat(n);
    assert a[|a| - 1] == b[|b| - 1];
    if m >= 10 && n >= 10 {
      assert a[..|a| - 1] == FormatNat(m / 10) && b[..|b| - 1] == FormatNat(n / 10);
      FormatNatTells(m / 10, n / 10);
    }
  }

  lemma FormatIntTells(m: int, n: int)
    requires FormatInt(m) == FormatInt(n)
    ensures m == n
  {
    var a, b := if m < 0 then -m else m, if n < 0 then -n else n;
    FormatNatShape(a);
    FormatNatShape(b);
    assert FormatNat(a)[0] in FormatNat(a) && FormatNat(b)[0] in FormatNat(b);
    if m < 0 { assert FormatInt(m)[1..] == FormatNat(a); }
    if n < 0 { assert FormatInt(n)[1..] == FormatNat(b); }
    FormatNatTells(a, b);
  }

  /** One slot key is one account on one server, whatever characters the account id has. */
  lemma SlotKeyTells(account: string, server: int, other: string, elsewhere: int)
    requires SlotKey(account, server) == SlotKey(other, elsewhere)
    ensures account == other && server == elsewhere
  {
    var x, y := FormatInt(server), FormatInt(elsewhere);
    var key := SlotKey(account, server);
    FormatNatShape(if server < 0 then -server else server);
    FormatNatShape(if elsewhere < 0 then -elsewhere else elsewhere);
    assert '@' !in x && '@' !in y;
    assert forall p | |account| < p < |key| :: key[p] == x[p - |account| - 1];
    assert forall p | |other| < p < |key| :: key[p] == y[p - |other| - 1];
    assert key[|account|] == '@' && key[|other|] == '@';
    assert key[..|account|] == account && key[..|other|] == other;
    assert key[|account| + 1..] == x && key[|other| + 1..] == y;
    FormatIntTells(server, elsewhere);
  }

  // ---------- one create as a sequence of atomic steps ----------

  datatype Request = Request(account: string, server: int, name: string)

  /** Where a create is: what it has taken so far, and which store call comes next. */
  datatype Stage =
    | Start
    | SlotTaken(slot: Versioned<Slot>)
    | NameReserved(slot: Versioned<Slot>, claim: Claim)
    | RoleMade(slot: Versioned<Slot>, claim: Claim, role: Versioned<Role>)
    | NameCommitted(slot: Versioned<Slot>, claim: Claim, role: Versioned<Role>)
    | Succeeded(role: Versioned<Role>)
    | UndoRole(slot: Versioned<Slot>, claim: Claim, role: Versioned<Role>)
    | UndoName(slot: Versioned<Slot>, claim: Claim)
    | DeleteName(slot: Versioned<Slot>, claim: Claim, seen: Reservation)
    | ReleaseName(slot: Versioned<Slot>, role: Versioned<Role>)
    | ReleaseNameRead(slot: Versioned<Slot>, role: Versioned<Role>, key: string, seen: Reservation)
    | UndoRoleLast(slot: Versioned<Slot>, role: Versioned<Role>)
    | UndoSlot(slot: Versioned<Slot>, lost: Option<Claim>)
    | Failed(lost: Option<Claim>)

  datatype Creator = Creator(req: Request, stage: Stage)
  {
    function Key(): string { SlotKey(req.account, req.server) }

    function NameKey(): Option<string> { Directory.NormalizeLower(req.name) }
  }

  /** The three stores a create writes, and as history the tokens minted so far. */
  datatype Stores = Stores(slots: Store<string, Slot>, names: Directory.Entries, roles: Store<int, Role>,
                           minted: map<string, (string, string)>)

  /** What the outside answers during a step: whether the account, server and name checks
      pass, the clock, a token, the claim's lifetime, and the allocated player id. */
  datatype Answer = Answer(admitted: bool, now: int, token: string, ttl: int, id: Option<int>)

  function TakeSlot(s: Stores, c: Creator, admitted: bool): (Stores, Stage)
  {
    if !admitted || c.Key() in s.slots then (s, Failed(None))
    else
      var slots := Put(s.slots, c.Key(), Slot(c.req.account, c.req.server, 0));
      (s.(slots := slots), SlotTaken(slots[c.Key()]))
  }

  function ReserveName(s: Stores, c: Creator, slot: Versioned<Slot>, a: Answer): (Stores, Stage)
  {
    if c.NameKey().None? || c.req.account == "" then (s, UndoSlot(slot, None))
    else
      var key := c.NameKey().value;
      var (names, result) := Directory.ReserveKey(s.names, key, c.req.name, c.req.account, a.ttl, a.now, a.token);
      var after := s.(names := names, minted := s.minted[a.token := (key, c.req.account)]);
      match result
      case Ok(claim) => (after, NameReserved(slot, claim))
      case Err(_) => (after, UndoSlot(slot, None))
  }

  function MakeRole(s: Stores, c: Creator, slot: Versioned<Slot>, claim: Claim, a: Answer): (Stores, Stage)
  {
    if a.id.None? || a.id.value == 0 || a.id.value in s.roles then (s, UndoName(slot, claim))
    else
      var id := a.id.value;
      var roles := Put(s.roles, id, Role(id, c.req.account, c.req.server, TrimSpace(c.req.name), Unix(a.now), 0));
      (s.(roles := roles), RoleMade(slot, claim, roles[id]))
  }

  function CommitName(s: Stores, slot: Versioned<Slot>, claim: Claim, role: Versioned<Role>, now: int): (Stores, Stage)
  {
    var (names, result) := Directory.CommitClaim(s.names, claim, now);
    if result.Err? then (s, UndoRole(slot, claim, role)) else (s.(names := names), NameCommitted(slot, claim, role))
  }

  function FillSlot(s: Stores, c: Creator, slot: Versioned<Slot>, role: Versioned<Role>): (Stores, Stage)
  {
    if c.Key() !in s.slots then (s, ReleaseName(slot, role))
    else
      var filled := s.slots[c.Key()].value.(playerID := role.value.playerID);
      (s.(slots := Put(s.slots, c.Key(), filled)), Succeeded(role))
  }

  function CancelName(s: Stores, slot: Versioned<Slot>, claim: Claim): (Stores, Stage)
  {
    match Directory.DecideCancel(s.names, claim)
    case Remove(seen) => (s, DeleteName(slot, claim, seen))
    case _ => (s, UndoSlot(slot, Some(claim)))
  }

  function ReadNameToRelease(s: Stores, c: Creator, slot: Versioned<Slot>, role: Versioned<Role>): (Stores, Stage)
  {
    var key := Directory.NormalizeLower(role.value.name);
    if key.None? then (s, UndoRoleLast(slot, role))
    else match Directory.DecideRelease(s.names, key.value, c.req.account)
      case Remove(seen) => (s, ReleaseNameRead(slot, role, key.value, seen))
      case _ => (s, UndoRoleLast(slot, role))
  }

  /** The next store call of a create, on the way forward or on the way back. */
  function Next(s: Stores, c: Creator, a: Answer): (Stores, Stage)
  {
    match c.stage
    case Start => TakeSlot(s, c, a.admitted)
    case SlotTaken(slot) => ReserveName(s, c, slot, a)
    case NameReserved(slot, claim) => MakeRole(s, c, slot, claim, a)
    case RoleMade(slot, claim, role) => CommitName(s, slot, claim, role, a.now)
    case NameCommitted(slot, claim, role) => FillSlot(s, c, slot, role)
    case UndoRole(slot, claim, role) =>
      (s.(roles := DeleteIf(s.roles, role.value.playerID, role)), UndoName(slot, claim))
    case UndoName(slot, claim) => CancelName(s, slot, claim)
    case DeleteName(slot, claim, seen) => (s.(names := DeleteIf(s.names, claim.key, seen)), UndoSlot(slot, Some(claim)))
    case ReleaseName(slot, role) => ReadNameToRelease(s, c, slot, role)
    case ReleaseNameRead(slot, role, key, seen) => (s.(names := DeleteIf(s.names, key, seen)), UndoRoleLast(slot, role))
    case UndoRoleLast(slot, role) =>
      (s.(roles := DeleteIf(s.roles, role.value.playerID, role)), UndoSlot(slot, None))
    case UndoSlot(slot, lost) => (s.(slots := DeleteIf(s.slots, c.Key(), slot)), Failed(lost))
    case Succeeded(_) => (s, c.stage)
    case Failed(_) => (s, c.stage)
  }

  // ---------- many creates at once ----------

  /** The stores, the creates under way, and as history the roles that somebody other than
      their creator wrote. */
  datatype World = World(stores: Stores, creators: seq<Creator>, touched: set<int>)

  datatype Event = Advance(i: nat, answer: Answer) | Touch(id: int, to: Option<Versioned<Role>>)

  function AdvanceBy(w: World, i: nat, a: Answer): World
    requires i < |w.creators|
  {
    var (stores, stage) := Next(w.stores, w.creators[i], a);
    w.(stores := stores, creators := w.creators[i := w.creators[i].(stage := stage)])
  }

  /** Others may write or remove any role at any time. */
  function Step(w: World, e: Event): World
  {
    match e
    case Advance(i, a) => if i < |w.creators| then AdvanceBy(w, i, a) else w
    case Touch(id, to) =>
      var roles := if to.Some? then w.stores.roles[id := to.value] else w.stores.roles - {id};
      w.(stores := w.stores.(roles := roles), touched := w.touched + {id})
  }

  function Run(w: World, events: seq<Event>): World
    decreases |events|
  {
    if events == [] then w else Run(Step(w, events[0]), events[1..])
  }

  /** No stores touched yet, any number of creates about to begin. */
  function Opening(requests: seq<Request>): World
  {
    World(Stores(map[], map[], map[], map[]),
          seq(|requests|, i requires 0 <= i < |requests| => Creator(requests[i], Start)), {})
  }

  predicate FreshToken(w: World, e: Event) { e.Advance? ==> e.answer.token !in w.stores.minted }

  predicate FreshRun(w: World, events: seq<Event>)
    decreases |events|
  {
    events == [] || (FreshToken(w, events[0]) && FreshRun(Step(w, events[0]), events[1..]))
  }

  // ---------- slots: who is in ----------

  /** Holding the slot: from taking it until success forever, or until it is given back. */
  predicate Inside(s: Stage) { !s.Start? && !s.Failed? }

  /** A create that passed its last failure point, and one undoing a failure after it. */
  predicate PastCommit(s: Stage) { s.ReleaseName? || s.ReleaseNameRead? || s.UndoRoleLast? }

  ghost predicate SlotHeld(slots: Store<string, Slot>, c: Creator)
  {
    Inside(c.stage) ==>
      && !PastCommit(c.stage)
      && c.Key() in slots
      && (if c.stage.Succeeded? then slots[c.Key()].value.playerID == c.stage.role.value.playerID
          else slots[c.Key()] == c.stage.slot)
  }

  ghost predicate SlotsInv(w: World)
  {
    && (forall i | 0 <= i < |w.creators| :: SlotHeld(w.stores.slots, w.creators[i]))
    && (forall i, j | 0 <= i < j < |w.creators| :: Apart(w.creators[i], w.creators[j]))
    && (forall k | k in w.stores.slots :: exists i :: HasSlot(w, i, k))
  }

  predicate Apart(c: Creator, d: Creator) { Inside(c.stage) && Inside(d.stage) ==> c.Key() != d.Key() }

  predicate HasSlot(w: World, i: int, key: string)
  {
    0 <= i < |w.creators| && Inside(w.creators[i].stage) && w.creators[i].Key() == key
  }

  /** What one step does to the slots: keep them and stay as far in, take one, fill the one
      it holds, or give it back. */
  ghost predicate SlotMove(slots: Store<string, Slot>, after: Store<string, Slot>, c: Creator, d: Creator)
  {
    && d.req == c.req
    && (|| (after == slots && !Inside(c.stage) && !Inside(d.stage))
        || (after == slots && Inside(c.stage) && (SlotHeld(slots, c) ==> SlotHeld(slots, d)) && Inside(d.stage))
        || (!Inside(c.stage) && c.Key() !in slots && Inside(d.stage)
            && c.Key() in after && after == slots[c.Key() := after[c.Key()]] && SlotHeld(after, d))
        || (Inside(c.stage) && c.Key() in slots && Inside(d.stage)
            && c.Key() in after && after == slots[c.Key() := after[c.Key()]] && SlotHeld(after, d))
        || (Inside(c.stage) && !Inside(d.stage) && (SlotHeld(slots, c) ==> after == slots - {c.Key()})))
  }

  lemma NextMovesSlot(s: Stores, c: Creator, a: Answer)
    requires SlotHeld(s.slots, c)
    ensures var (after, stage) := Next(s, c, a);
      SlotMove(s.slots, after.slots, c, c.(stage := stage))
  {
    hide SlotKey, Directory.ReserveKey, Directory.CommitClaim, Directory.DecideCancel, Directory.DecideRelease,
         Directory.NormalizeLower;
  }

  lemma SlotsStep(w: World, i: nat, a: Answer)
    requires SlotsInv(w) && i < |w.creators|
    ensures SlotsInv(AdvanceBy(w, i, a))
  {
    hide Next, Inside, PastCommit, SlotKey;
    var after := AdvanceBy(w, i, a);
    assert SlotHeld(w.stores.slots, w.creators[i]);
    NextMovesSlot(w.stores, w.creators[i], a);
    forall j | 0 <= j < |after.creators|
      ensures SlotHeld(after.stores.slots, after.creators[j])
    {
      assert SlotHeld(w.stores.slots, w.creators[j]);
      if j < i { assert Apart(w.creators[j], w.creators[i]); }
      if i < j { assert Apart(w.creators[i], w.creators[j]); }
    }
    forall j, k | 0 <= j < k < |after.creators|
      ensures Apart(after.creators[j], after.creators[k])
    {
      assert Apart(w.creators[j], w.creators[k]);
      assert SlotHeld(w.stores.slots, w.creators[j]) && SlotHeld(w.stores.slots, w.creators[k]);
    }
    forall k | k in after.stores.slots
      ensures exists j :: HasSlot(after, j, k)
    {
      if k in w.stores.slots {
        var j :| HasSlot(w, j, k);
        assert HasSlot(after, j, k);
      } else {
        assert HasSlot(after, i, k);
      }
    }
  }

  // ---------- names: whose they are ----------

  /** The claim is one that Reserve handed to this create, or to its account before. */
  predicate OwnClaim(s: Stores, c: Creator, claim: Claim)
  {
    && claim.token in s.minted && s.minted[claim.token] == (claim.key, claim.owner)
    && claim.owner == c.req.account && c.NameKey() == Some(claim.key)
  }

  /** The name stands committed to the create's account. */
  predicate HasName(s: Stores, c: Creator)
  {
    && c.NameKey().Some? && c.NameKey().value in s.names
    && s.names[c.NameKey().value].value.state == Directory.Committed
    && s.names[c.NameKey().value].value.owner == c.req.account
  }

  predicate NoReservationLeft(s: Stores, claim: Claim)
  {
    claim.key in s.names && s.names[claim.key].value.token == claim.token ==>
      s.names[claim.key].value.state == Directory.Committed
  }

  predicate NameHeld(s: Stores, c: Creator)
  {
    match c.stage
    case NameReserved(_, claim) => OwnClaim(s, c, claim)
    case RoleMade(_, claim, _) => OwnClaim(s, c, claim)
    case NameCommitted(_, claim, _) => OwnClaim(s, c, claim) && HasName(s, c)
    case Succeeded(_) => HasName(s, c)
    case UndoRole(_, claim, _) => OwnClaim(s, c, claim)
    case UndoName(_, claim) => OwnClaim(s, c, claim)
    case DeleteName(_, claim, seen) =>
      && OwnClaim(s, c, claim) && seen.value.token == claim.token && seen.value.state == Directory.Reserved
      && (claim.key in s.names && s.names[claim.key] != seen ==> NoReservationLeft(s, claim))
    case UndoSlot(_, Some(claim)) => OwnClaim(s, c, claim) && NoReservationLeft(s, claim)
    case Failed(Some(claim)) => OwnClaim(s, c, claim) && NoReservationLeft(s, claim)
    case _ => true
  }

  predicate Named(c: Creator) { c.stage.NameCommitted? || c.stage.Succeeded? }

  /** What any step may do to the names: mint new tokens, keep every committed entry, and
      reserve only with a token never used before. */
  ghost predicate NamesMove(s: Stores, after: Stores)
  {
    && (forall t | t in s.minted :: t in after.minted && after.minted[t] == s.minted[t])
    && (forall k | k in s.names && s.names[k].value.state == Directory.Committed ::
          k in after.names && after.names[k] == s.names[k])
    && (forall k | k in after.names && after.names[k].value.state == Directory.Reserved
                   && after.names[k].value.token in s.minted ::
          k in s.names && after.names[k] == s.names[k])
  }

  lemma OthersKeepTheirName(s: Stores, after: Stores, c: Creator)
    requires NamesMove(s, after) && NameHeld(s, c)
    ensures NameHeld(after, c)
  {
    hide Directory.NormalizeLower;
  }

  /** The committed names are those of before and the one this create just committed. */
  ghost predicate CommitsOnly(s: Stores, after: Stores, d: Creator)
  {
    forall k | k in after.names && after.names[k].value.state == Directory.Committed ::
      || (k in s.names && after.names[k] == s.names[k])
      || (Named(d) && d.NameKey() == Some(k) && after.names[k].value.owner == d.req.account)
  }

  /** What one step of a create keeps of the names, for itself and for the others. */
  ghost predicate NamesKept(s: Stores, c: Creator, after: Stores, d: Creator)
  {
    && Directory.TokensTell(after.names, after.minted) && NamesMove(s, after)
    && NameHeld(after, d) && CommitsOnly(s, after, d) && (Named(c) ==> Named(d))
  }

  /** A reservation, new or shared, over names whose tokens tell whose they are. */
  lemma ReserveMovesNames(s: Stores, key: string, raw: string, owner: string, a: Answer)
    requires Directory.TokensTell(s.names, s.minted) && a.token !in s.minted
    ensures var (names, result) := Directory.ReserveKey(s.names, key, raw, owner, a.ttl, a.now, a.token);
      var after := s.(names := names, minted := s.minted[a.token := (key, owner)]);
      && Directory.TokensTell(after.names, after.minted) && NamesMove(s, after)
      && (forall k | k in names && names[k].value.state == Directory.Committed ::
            k in s.names && names[k] == s.names[k])
      && (result.Ok? ==>
            var claim := result.value;
            && claim.key == key && claim.owner == owner
            && claim.token in after.minted && after.minted[claim.token] == (key, owner))
  {}

  lemma ReserveKeepsNames(s: Stores, c: Creator, a: Answer)
    requires Directory.TokensTell(s.names, s.minted) && a.token !in s.minted && c.stage.SlotTaken?
    ensures var (after, stage) := ReserveName(s, c, c.stage.slot, a);
      NamesKept(s, c, after, c.(stage := stage))
  {
    hide Directory.NormalizeLower, SlotKey, Directory.ReserveKey;
    if c.NameKey().Some? {
      ReserveMovesNames(s, c.NameKey().value, c.req.name, c.req.account, a);
    }
  }

  lemma CommitKeepsNames(s: Stores, c: Creator, now: int)
    requires Directory.TokensTell(s.names, s.minted) && NameHeld(s, c) && c.stage.RoleMade?
    ensures var (after, stage) := CommitName(s, c.stage.slot, c.stage.claim, c.stage.role, now);
      NamesKept(s, c, after, c.(stage := stage))
  {
    hide Directory.NormalizeLower, SlotKey;
  }

  lemma CancelKeepsNames(s: Stores, c: Creator)
    requires Directory.TokensTell(s.names, s.minted) && NameHeld(s, c) && c.stage.UndoName?
    ensures var (after, stage) := CancelName(s, c.stage.slot, c.stage.claim);
      NamesKept(s, c, after, c.(stage := stage))
  {
    hide Directory.NormalizeLower, SlotKey;
  }

  lemma DeleteKeepsNames(s: Stores, c: Creator)
    requires Directory.TokensTell(s.names, s.minted) && NameHeld(s, c) && c.stage.DeleteName?
    ensures var (slot, claim, seen) := (c.stage.slot, c.stage.claim, c.stage.seen);
      NamesKept(s, c, s.(names := DeleteIf(s.names, claim.key, seen)), c.(stage := UndoSlot(slot, Some(claim))))
  {
    hide Directory.NormalizeLower, SlotKey;
  }

  /** A step that leaves the names alone, and claims no more than before. */
  lemma UntouchedNamesAreKept(s: Stores, c: Creator, after: Stores, d: Creator)
    requires Directory.TokensTell(s.names, s.minted) && after.names == s.names && after.minted == s.minted
    requires NameHeld(s, d) && (Named(c) ==> Named(d))
    ensures NamesKept(s, c, after, d)
  {
    hide Directory.NormalizeLower, SlotKey;
  }

  lemma NextKeepsNames(s: Stores, c: Creator, a: Answer)
    requires Directory.TokensTell(s.names, s.minted) && NameHeld(s, c) && a.token !in s.minted
    requires !PastCommit(c.stage) && (c.stage.NameCommitted? ==> c.Key() in s.slots)
    ensures var (after, stage) := Next(s, c, a);
      NamesKept(s, c, after, c.(stage := stage))
  {
    hide Directory.NormalizeLower, SlotKey, ReserveName, CommitName, CancelName, DeleteIf, NamesKept,
         Directory.TokensTell;
    match c.stage {
      case SlotTaken(_) => ReserveKeepsNames(s, c, a);
      case RoleMade(_, _, _) => CommitKeepsNames(s, c, a.now);
      case UndoName(_, _) => CancelKeepsNames(s, c);
      case DeleteName(_, _, _) => DeleteKeepsNames(s, c);
      case _ =>
        var (after, stage) := Next(s, c, a);
        UntouchedNamesAreKept(s, c, after, c.(stage := stage));
    }
  }

  ghost predicate NamesInv(w: World)
  {
    && Directory.TokensTell(w.stores.names, w.stores.minted)
    && (forall i | 0 <= i < |w.creators| :: NameHeld(w.stores, w.creators[i]))
    && (forall k | k in w.stores.names && w.stores.names[k].value.state == Directory.Committed ::
          exists i :: CommittedFor(w, i, k))
  }

  predicate CommittedFor(w: World, i: int, key: string)
    requires key in w.stores.names
  {
    && 0 <= i < |w.creators| && Named(w.creators[i]) && w.creators[i].NameKey() == Some(key)
    && w.stores.names[key].value.owner == w.creators[i].req.account
  }

  lemma NamesStep(w: World, i: nat, a: Answer)
    requires NamesInv(w) && SlotsInv(w) && i < |w.creators| && a.token !in w.stores.minted
    ensures NamesInv(AdvanceBy(w, i, a))
  {
    hide Next, Directory.NormalizeLower, Directory.TokensTell, SlotKey, NameHeld, NamesMove;
    var after := AdvanceBy(w, i, a);
    var c := w.creators[i];
    assert SlotHeld(w.stores.slots, c) && NameHeld(w.stores, c);
    NextKeepsNames(w.stores, c, a);
    forall j | 0 <= j < |after.creators|
      ensures NameHeld(after.stores, after.creators[j])
    {
      if j != i {
        OthersKeepTheirName(w.stores, after.stores, w.creators[j]);
      }
    }
    forall k | k in after.stores.names && after.stores.names[k].value.state == Directory.Committed
      ensures exists j :: CommittedFor(after, j, k)
    {
      if k in w.stores.names && after.stores.names[k] == w.stores.names[k] {
        var j :| CommittedFor(w, j, k);
        assert CommittedFor(after, j, k);
      } else {
        assert CommittedFor(after, i, k);
      }
    }
  }

  // ---------- roles: who made them ----------

  function RoleOf(s: Stage): Option<Versioned<Role>>
  {
    match s
    case RoleMade(_, _, role) => Some(role)
    case NameCommitted(_, _, role) => Some(role)
    case UndoRole(_, _, role) => Some(role)
    case Succeeded(role) => Some(role)
    case _ => None
  }

  /** The role a create made stands as it made it, unless somebody else wrote it. */
  predicate RoleHeld(roles: Store<int, Role>, touched: set<int>, c: Creator)
  {
    RoleOf(c.stage).Some? ==>
      var role := RoleOf(c.stage).value;
      && role.value.accountID == c.req.account && role.value.serverID == c.req.server
      && role.value.name == TrimSpace(c.req.name)
      && (role.value.playerID !in touched ==>
            role.value.playerID in roles && roles[role.value.playerID] == role)
  }

  ghost predicate RolesInv(w: World)
  {
    && (forall i | 0 <= i < |w.creators| :: RoleHeld(w.stores.roles, w.touched, w.creators[i]))
    && (forall id | id in w.stores.roles && id !in w.touched :: exists i :: MadeRole(w, i, id))
  }

  predicate MadeRole(w: World, i: int, id: int)
    requires id in w.stores.roles
  {
    0 <= i < |w.creators| && RoleOf(w.creators[i].stage) == Some(w.stores.roles[id])
    && w.stores.roles[id].value.playerID == id
  }

  /** What one step does to the roles: nothing, insert a new one, or delete its own. */
  ghost predicate RoleMove(roles: Store<int, Role>, after: Store<int, Role>, c: Creator, d: Creator)
  {
    || (after == roles && RoleOf(d.stage) == RoleOf(c.stage))
    || (RoleOf(c.stage).None? && RoleOf(d.stage).Some? &&
        var role := RoleOf(d.stage).value;
        && role.value.playerID !in roles && after == roles[role.value.playerID := role]
        && role.value.accountID == c.req.account && role.value.serverID == c.req.server
        && role.value.name == TrimSpace(c.req.name))
    || (RoleOf(c.stage).Some? && RoleOf(d.stage).None? &&
        var role := RoleOf(c.stage).value;
        after == DeleteIf(roles, role.value.playerID, role))
  }

  lemma NextMovesRole(s: Stores, c: Creator, a: Answer)
    requires !PastCommit(c.stage) && (c.stage.NameCommitted? ==> c.Key() in s.slots)
    ensures var (after, stage) := Next(s, c, a);
      RoleMove(s.roles, after.roles, c, c.(stage := stage))
  {
    hide SlotKey, TrimSpace, Directory.ReserveKey, Directory.CommitClaim, Directory.DecideCancel,
         Directory.DecideRelease, Directory.NormalizeLower;
  }

  lemma RolesStep(w: World, i: nat, a: Answer)
    requires RolesInv(w) && SlotsInv(w) && i < |w.creators|
    ensures RolesInv(AdvanceBy(w, i, a))
  {
    hide Next, SlotKey, TrimSpace;
    var after := AdvanceBy(w, i, a);
    var c, d := w.creators[i], after.creators[i];
    assert SlotHeld(w.stores.slots, c) && RoleHeld(w.stores.roles, w.touched, c);
    NextMovesRole(w.stores, c, a);
    forall j | 0 <= j < |after.creators|
      ensures RoleHeld(after.stores.roles, after.touched, after.creators[j])
    {
      assert RoleHeld(w.stores.roles, w.touched, w.creators[j]);
      if j < i { assert Apart(w.creators[j], c); }
      if i < j { assert Apart(c, w.creators[j]); }
    }
    forall id | id in after.stores.roles && id !in after.touched
      ensures exists j :: MadeRole(after, j, id)
    {
      if id in w.stores.roles && w.stores.roles[id] == after.stores.roles[id] {
        var j :| MadeRole(w, j, id);
        assert MadeRole(after, j, id);
      } else {
        assert MadeRole(after, i, id);
      }
    }
  }

  // ---------- whole runs ----------

  ghost predicate Inv(w: World) { SlotsInv(w) && NamesInv(w) && RolesInv(w) }

  lemma TouchKeepsSlots(w: World, id: int, to: Option<Versioned<Role>>)
    requires SlotsInv(w)
    ensures SlotsInv(Step(w, Touch(id, to)))
  {
    var after := Step(w, Touch(id, to));
    forall k | k in after.stores.slots
      ensures exists j :: HasSlot(after, j, k)
    {
      var j :| HasSlot(w, j, k);
      assert HasSlot(after, j, k);
    }
  }

  lemma TouchKeepsNames(w: World, id: int, to: Option<Versioned<Role>>)
    requires NamesInv(w)
    ensures NamesInv(Step(w, Touch(id, to)))
  {
    hide SlotKey, Directory.NormalizeLower, Directory.TokensTell;
    var after := Step(w, Touch(id, to));
    forall j | 0 <= j < |after.creators|
      ensures NameHeld(after.stores, after.creators[j])
    {
      assert NameHeld(w.stores, w.creators[j]);
    }
    assert Directory.TokensTell(after.stores.names, after.stores.minted);
    forall k | k in after.stores.names && after.stores.names[k].value.state == Directory.Committed
      ensures exists j :: CommittedFor(after, j, k)
    {
      var j :| CommittedFor(w, j, k);
      assert CommittedFor(after, j, k);
    }
  }

  lemma TouchKeepsRoles(w: World, id: int, to: Option<Versioned<Role>>)
    requires RolesInv(w)
    ensures RolesInv(Step(w, Touch(id, to)))
  {
    hide SlotKey, TrimSpace;
    var after := Step(w, Touch(id, to));
    forall j | 0 <= j < |after.creators|
      ensures RoleHeld(after.stores.roles, after.touched, after.creators[j])
    {
      assert RoleHeld(w.stores.roles, w.touched, w.creators[j]);
    }
    forall d | d in after.stores.roles && d !in after.touched
      ensures exists j :: MadeRole(after, j, d)
    {
      var j :| MadeRole(w, j, d);
      assert MadeRole(after, j, d);
    }
  }

  lemma TouchKeepsInv(w: World, id: int, to: Option<Versioned<Role>>)
    requires Inv(w)
    ensures Inv(Step(w, Touch(id, to)))
  {
    hide SlotsInv, NamesInv, RolesInv;
    TouchKeepsSlots(w, id, to);
    TouchKeepsNames(w, id, to);
    TouchKeepsRoles(w, id, to);
  }

  lemma {:induction false} RunKeepsInv(w: World, events: seq<Event>)
    requires Inv(w) && FreshRun(w, events)
    ensures Inv(Run(w, events))
    decreases |events|
  {
    hide SlotsInv, NamesInv, RolesInv, AdvanceBy;
    if events != [] {
      match events[0] {
        case Advance(i, a) =>
          if i < |w.creators| {
            SlotsStep(w, i, a);
            NamesStep(w, i, a);
            RolesStep(w, i, a);
          }
        case Touch(id, to) => TouchKeepsInv(w, id, to);
      }
      RunKeepsInv(Step(w, events[0]), events[1..]);
    }
  }

  lemma OpeningHasInv(requests: seq<Request>)
    ensures Inv(Opening(requests))
  {}

  lemma {:induction false} RunKeepsRequests(w: World, events: seq<Event>)
    ensures |Run(w, events).creators| == |w.creators|
    ensures forall i | 0 <= i < |w.creators| :: Run(w, events).creators[i].req == w.creators[i].req
    decreases |events|
  {
    hide Next;
    if events != [] { RunKeepsRequests(Step(w, events[0]), events[1..]); }
  }

  /** Every state reached by creates that begin on empty stores, with tokens minted once. */
  ghost predicate Reached(requests: seq<Request>, events: seq<Event>, w: World)
  {
    FreshRun(Opening(requests), events) && w == Run(Opening(requests), events)
  }

  lemma ReachedHasInv(requests: seq<Request>, events: seq<Event>, w: World)
    requires Reached(requests, events, w)
    ensures Inv(w) && |w.creators| == |requests|
    ensures forall i | 0 <= i < |requests| :: w.creators[i].req == requests[i]
  {
    OpeningHasInv(requests);
    RunKeepsInv(Opening(requests), events);
    RunKeepsRequests(Opening(requests), events);
  }

  /** An outcome, once reached, is the outcome in every later state. */
  lemma {:induction false} OutcomesAreFinal(w: World, events: seq<Event>, i: nat)
    requires i < |w.creators| && (w.creators[i].stage.Succeeded? || w.creators[i].stage.Failed?)
    ensures i < |Run(w, events).creators| && Run(w, events).creators[i] == w.creators[i]
    decreases |events|
  {
    if events != [] { OutcomesAreFinal(Step(w, events[0]), events[1..], i); }
  }

  /** However many creates race, at most one ever succeeds per account and server. */
  lemma OneRolePerAccountAndServer(requests: seq<Request>, events: seq<Event>, w: World, i: nat, j: nat)
    requires Reached(requests, events, w) && i < j < |w.creators|
    requires w.creators[i].stage.Succeeded? && w.creators[j].stage.Succeeded?
    ensures w.creators[i].req.account != w.creators[j].req.account
            || w.creators[i].req.server != w.creators[j].req.server
  {
    ReachedHasInv(requests, events, w);
    assert Apart(w.creators[i], w.creators[j]);
  }

  /** Names that normalize alike are had by one account only. */
  lemma NameBelongsToOneAccount(requests: seq<Request>, events: seq<Event>, w: World, i: nat, j: nat)
    requires Reached(requests, events, w) && i < |w.creators| && j < |w.creators|
    requires w.creators[i].stage.Succeeded? && w.creators[j].stage.Succeeded?
    requires Directory.NormalizeLower(w.creators[i].req.name) == Directory.NormalizeLower(w.creators[j].req.name)
    ensures w.creators[i].req.account == w.creators[j].req.account
  {
    hide Directory.NormalizeLower;
    ReachedHasInv(requests, events, w);
    assert NameHeld(w.stores, w.creators[i]) && NameHeld(w.stores, w.creators[j]);
  }

  /** A success is whole: the slot names the role, the name is the account's for good, and the
      role stands as it was made unless somebody wrote it since. */
  lemma SuccessIsWhole(requests: seq<Request>, events: seq<Event>, w: World, i: nat)
    requires Reached(requests, events, w) && i < |w.creators| && w.creators[i].stage.Succeeded?
    ensures var key, role := SlotKey(w.creators[i].req.account, w.creators[i].req.server), w.creators[i].stage.role;
      && key in w.stores.slots && w.stores.slots[key].value.playerID == role.value.playerID
      && HasName(w.stores, w.creators[i])
      && role.value.accountID == w.creators[i].req.account && role.value.serverID == w.creators[i].req.server
      && (role.value.playerID !in w.touched ==>
            role.value.playerID in w.stores.roles && w.stores.roles[role.value.playerID] == role)
  {
    hide Directory.NormalizeLower, SlotKey;
    ReachedHasInv(requests, events, w);
    var c := w.creators[i];
    assert SlotHeld(w.stores.slots, c) && NameHeld(w.stores, c) && RoleHeld(w.stores.roles, w.touched, c);
  }

  /** A failed create leaves no slot: one under its key is another create's, still at work
      or successful. */
  lemma FailedLeavesNoSlot(requests: seq<Request>, events: seq<Event>, w: World, i: nat)
    requires Reached(requests, events, w) && i < |w.creators| && w.creators[i].stage.Failed?
    ensures w.creators[i].Key() in w.stores.slots ==> exists j :: j != i && HasSlot(w, j, w.creators[i].Key())
  {
    hide SlotKey, Next;
    ReachedHasInv(requests, events, w);
    if w.creators[i].Key() in w.stores.slots {
      var j :| HasSlot(w, j, w.creators[i].Key());
      assert j != i && HasSlot(w, j, w.creators[i].Key());
    }
  }

  /** A failed create leaves no role: every role nobody else wrote is another create's, just
      as that one made it. */
  lemma FailedLeavesNoRole(requests: seq<Request>, events: seq<Event>, w: World, i: nat, id: int)
    requires Reached(requests, events, w) && i < |w.creators| && w.creators[i].stage.Failed?
    requires id in w.stores.roles && id !in w.touched
    ensures exists j :: j != i && MadeRole(w, j, id)
  {
    hide SlotKey, Next;
    ReachedHasInv(requests, events, w);
    var j :| MadeRole(w, j, id);
    assert j != i && MadeRole(w, j, id);
  }

  /** A failed create leaves no reservation: whatever entry carries its token was committed
      for another create of the same account, which shared the claim. */
  lemma FailedLeavesNoReservation(requests: seq<Request>, events: seq<Event>, w: World, i: nat, key: string)
    requires Reached(requests, events, w) && i < |w.creators|
    requires w.creators[i].stage.Failed? && w.creators[i].stage.lost.Some? && key in w.stores.names
    requires w.stores.names[key].value.token == w.creators[i].stage.lost.value.token
    ensures w.stores.names[key].value.state == Directory.Committed
    ensures w.stores.names[key].value.owner == w.creators[i].req.account
    ensures exists j :: j != i && CommittedFor(w, j, key)
  {
    hide SlotKey, Directory.NormalizeLower, Next;
    ReachedHasInv(requests, events, w);
    assert NameHeld(w.stores, w.creators[i]);
    assert key == w.creators[i].stage.lost.value.key;
    var j :| CommittedFor(w, j, key);
    assert j != i && CommittedFor(w, j, key);
  }

  /** Once its name is committed a create succeeds at its next step: the slot cannot have
      vanished, so the last undo path is never entered. */
  lemma CommittedMeansSuccess(requests: seq<Request>, events: seq<Event>, w: World, i: nat, a: Answer)
    requires Reached(requests, events, w) && i < |w.creators|
    ensures !PastCommit(w.creators[i].stage)
    ensures w.creators[i].stage.NameCommitted? ==> AdvanceBy(w, i, a).creators[i].stage.Succeeded?
  {
    hide SlotKey;
    ReachedHasInv(requests, events, w);
    assert SlotHeld(w.stores.slots, w.creators[i]);
  }

  // ---------- a create that stops halfway ----------

  predicate Untouched(events: seq<Event>, i: nat) { forall e | e in events :: e.Advance? ==> e.i != i }

  /** A step of anybody else leaves a create that is inside, and its slot, as they are. */
  lemma OthersLeaveTheSlot(w: World, e: Event, i: nat)
    requires SlotsInv(w) && i < |w.creators| && Inside(w.creators[i].stage) && (e.Advance? ==> e.i != i)
    ensures var after, key := Step(w, e), w.creators[i].Key();
      && SlotsInv(after) && i < |after.creators| && after.creators[i] == w.creators[i]
      && key in w.stores.slots && key in after.stores.slots && after.stores.slots[key] == w.stores.slots[key]
  {
    hide Next, Inside, PastCommit, SlotKey;
    assert SlotHeld(w.stores.slots, w.creators[i]);
    match e {
      case Advance(j, a) =>
        if j < |w.creators| {
          assert SlotHeld(w.stores.slots, w.creators[j]);
          NextMovesSlot(w.stores, w.creators[j], a);
          SlotsStep(w, j, a);
          if j < i { assert Apart(w.creators[j], w.creators[i]); }
          if i < j { assert Apart(w.creators[i], w.creators[j]); }
        }
      case Touch(id, to) => TouchKeepsSlots(w, id, to);
    }
  }

  /** A create that stops while it is inside keeps its slot forever, since no slot lapses:
      whatever happens later, every other create of that account and server fails at its
      first step. */
  lemma {:induction false} StoppedCreateBlocksItsSlot(w: World, events: seq<Event>, i: nat, j: nat, a: Answer)
    requires SlotsInv(w) && i < |w.creators| && Inside(w.creators[i].stage) && Untouched(events, i)
    ensures var later, key := Run(w, events), w.creators[i].Key();
      && key in w.stores.slots && key in later.stores.slots && later.stores.slots[key] == w.stores.slots[key]
      && i < |later.creators| && later.creators[i] == w.creators[i]
      && (j < |later.creators| && later.creators[j].stage.Start? && later.creators[j].Key() == key ==>
            AdvanceBy(later, j, a).creators[j].stage == Failed(None))
    decreases |events|
  {
    hide Inside, SlotKey;
    if events == [] {
      assert SlotHeld(w.stores.slots, w.creators[i]);
    } else {
      assert events[0] in events;
      OthersLeaveTheSlot(w, events[0], i);
      StoppedCreateBlocksItsSlot(Step(w, events[0]), events[1..], i, j, a);
    }
  }

  /** So in every state reached, a crash between taking the slot and giving it back burns it. */
  lemma CrashBurnsTheSlot(requests: seq<Request>, before: seq<Event>, w: World, after: seq<Event>,
                          i: nat, j: nat, a: Answer)
    requires Reached(requests, before, w) && i < |w.creators| && Inside(w.creators[i].stage)
    requires Untouched(after, i)
    ensures var later := Run(w, after);
      && |later.creators| == |w.creators|
      && w.creators[i].Key() in later.stores.slots
      && (j < |w.creators| && later.creators[j].stage.Start?
          && w.creators[j].req.account == w.creators[i].req.account
          && w.creators[j].req.server == w.creators[i].req.server ==>
            AdvanceBy(later, j, a).creators[j].stage == Failed(None))
  {
    hide SlotsInv, NamesInv, RolesInv, Inside, SlotKey, AdvanceBy;
    ReachedHasInv(requests, before, w);
    RunKeepsRequests(w, after);
    StoppedCreateBlocksItsSlot(w, after, i, j, a);
  }
}
