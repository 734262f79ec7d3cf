/** service/account: CreateRole over its stores, as one caller runs it. */
module AccountService {
  import opened Clock
  import opened Text
  import opened VersionStore
  import opened AccountCreate
  import Directory

  datatype ServerStatus = Open | Maintenance | Full | Closed

  datatype AccountError =
    | AccountMissing | NameInvalid | IdentityDenied | ServerInvalid | ServerClosed | RoleLimit | NameTaken
    | NameRefused(error: Directory.DirectoryError) | AllocatorFailed | ZeroPlayerID | Conflict

  datatype Result = Ok(role: Role) | Err(error: AccountError)

  /** What the outside answers during one create: the name rules, the clock at each store
      write that reads it, a token, the allocator, and whether somebody removed the slot
      just before it is filled in. */
  datatype Outside = Outside(nameAllowed: bool, reserveAt: int, createAt: int, commitAt: int,
                             token: string, id: Option<int>, slotRemoved: bool)

  /** Every refusal that comes before anything is written. */
  function Admission(accounts: map<string, bool>, servers: map<int, ServerStatus>, req: Request, nameAllowed: bool)
    : Option<AccountError>
  {
    if TrimSpace(req.account) == "" then Some(AccountMissing)
    else if !nameAllowed then Some(NameInvalid)
    else if req.account !in accounts then Some(AccountMissing)
    else if accounts[req.account] then Some(IdentityDenied)
    else if req.server !in servers then Some(ServerInvalid)
    else if servers[req.server] != Open then Some(ServerClosed)
    else None
  }

  /** Each refusal in the order of the checks, and what is left when there is none. */
  lemma AdmissionMeaning(accounts: map<string, bool>, servers: map<int, ServerStatus>, req: Request, nameAllowed: bool)
    ensures var refused := Admission(accounts, servers, req, nameAllowed);
      var named := TrimSpace(req.account) != "" && nameAllowed;
      var known := named && req.account in accounts;
      && (refused == Some(AccountMissing) <==>
            TrimSpace(req.account) == "" || (nameAllowed && req.account !in accounts))
      && (refused == Some(NameInvalid) <==> TrimSpace(req.account) != "" && !nameAllowed)
      && (refused == Some(IdentityDenied) <==> known && accounts[req.account])
      && (refused == Some(ServerInvalid) <==> known && !accounts[req.account] && req.server !in servers)
      && (refused == Some(ServerClosed) <==>
            known && !accounts[req.account] && req.server in servers && servers[req.server] != Open)
      && (refused == None <==>
            known && !accounts[req.account] && req.server in servers && servers[req.server] == Open)
    ensures Admission(accounts, servers, req, nameAllowed) == None ==> req.account != ""
  {
    assert TrimSpace("") == "";
  }

  // ---------- the machine's steps, one create at a time ----------

  function Left(s: Stage): nat
  {
    match s
    case Start => 12
    case SlotTaken(_) => 11
    case NameReserved(_, _) => 10
    case RoleMade(_, _, _) => 9
    case NameCommitted(_, _, _) => 8
    case UndoRole(_, _, _) => 7
    case UndoName(_, _) => 6
    case DeleteName(_, _, _) => 5
    case ReleaseName(_, _) => 4
    case ReleaseNameRead(_, _, _, _) => 3
    case UndoRoleLast(_, _) => 2
    case UndoSlot(_, _) => 1
    case Succeeded(_) => 0
    case Failed(_) => 0
  }

  function AnswerTo(s: Stage, admitted: bool, ttl: int, out: Outside): Answer
  {
    var now := if s.SlotTaken? then out.reserveAt else if s.NameReserved? then out.createAt else out.commitAt;
    Answer(admitted, now, out.token, ttl, out.id)
  }

  /** Just before the slot is filled in somebody may have removed it. */
  function Disturb(s: Stores, c: Creator, out: Outside): Stores
  {
    if c.stage.NameCommitted? && out.slotRemoved then s.(slots := s.slots - {c.Key()}) else s
  }

  lemma NextGetsNearer(s: Stores, c: Creator, a: Answer)
    requires !c.stage.Succeeded? && !c.stage.Failed?
    ensures Left(Next(s, c, a).1) < Left(c.stage)
  {
    hide SlotKey, TrimSpace, Directory.ReserveKey, Directory.CommitClaim, Directory.DecideCancel,
         Directory.DecideRelease, Directory.NormalizeLower;
  }

  /** One create stepped to its outcome, with no other create in between. */
  function Finish(s: Stores, c: Creator, admitted: bool, ttl: int, out: Outside): (Stores, Stage)
    decreases Left(c.stage)
  {
    if c.stage.Succeeded? || c.stage.Failed? then (s, c.stage)
    else
      var a := AnswerTo(c.stage, admitted, ttl, out);
      var (after, stage) := Next(Disturb(s, c, out), c, a);
      NextGetsNearer(Disturb(s, c, out), c, a);
      Finish(after, c.(stage := stage), admitted, ttl, out)
  }

  lemma StepOnce(s: Stores, c: Creator, admitted: bool, ttl: int, out: Outside) returns (after: Stores, d: Creator)
    requires !c.stage.Succeeded? && !c.stage.Failed?
    ensures (after, d.stage) == Next(Disturb(s, c, out), c, AnswerTo(c.stage, admitted, ttl, out)) && d.req == c.req
    ensures Finish(s, c, admitted, ttl, out) == Finish(after, d, admitted, ttl, out)
  {
    var (stores, stage) := Next(Disturb(s, c, out), c, AnswerTo(c.stage, admitted, ttl, out));
    after, d := stores, c.(stage := stage);
  }

  lemma Ended(s: Stores, c: Creator, admitted: bool, ttl: int, out: Outside)
    requires c.stage.Succeeded? || c.stage.Failed?
    ensures Finish(s, c, admitted, ttl, out) == (s, c.stage)
  {}

  lemma Undo(s: Stores, c: Creator, admitted: bool, ttl: int, out: Outside) returns (after: Stores, d: Creator)
    requires c.stage.UndoSlot?
    ensures after == s.(slots := DeleteIf(s.slots, c.Key(), c.stage.slot)) && d.stage == Failed(c.stage.lost)
    ensures Finish(s, c, admitted, ttl, out) == (after, d.stage)
  {
    after, d := StepOnce(s, c, admitted, ttl, out);
    Ended(after, d, admitted, ttl, out);
  }

  /** The names after a create that got its claim and failed: its reservation is gone, and a
      name already committed to the account stays. */
  function Unclaimed(names: Directory.Entries, claim: Claim): Directory.Entries
  {
    match Directory.DecideCancel(names, claim)
    case Remove(seen) => DeleteIf(names, claim.key, seen)
    case _ => names
  }

  lemma UndoFromName(s: Stores, c: Creator, admitted: bool, ttl: int, out: Outside) returns (after: Stores, d: Creator)
    requires c.stage.UndoName?
    ensures after == s.(names := Unclaimed(s.names, c.stage.claim), slots := DeleteIf(s.slots, c.Key(), c.stage.slot))
    ensures d.stage == Failed(Some(c.stage.claim)) && Finish(s, c, admitted, ttl, out) == (after, d.stage)
  {
    hide Finish, SlotKey, TrimSpace, Directory.NormalizeLower;
    after, d := StepOnce(s, c, admitted, ttl, out);
    if d.stage.DeleteName? { after, d := StepOnce(after, d, admitted, ttl, out); }
    after, d := Undo(after, d, admitted, ttl, out);
  }

  lemma UndoFromCommit(s: Stores, c: Creator, admitted: bool, ttl: int, out: Outside)
    returns (after: Stores, d: Creator)
    requires c.stage.ReleaseName? && Directory.NormalizeLower(c.stage.role.value.name).Some?
    ensures var key := Directory.NormalizeLower(c.stage.role.value.name).value;
      after == s.(names := match Directory.DecideRelease(s.names, key, c.req.account)
                    case Remove(seen) => DeleteIf(s.names, key, seen)
                    case _ => s.names,
                  roles := DeleteIf(s.roles, c.stage.role.value.playerID, c.stage.role),
                  slots := DeleteIf(s.slots, c.Key(), c.stage.slot))
    ensures d.stage == Failed(None) && Finish(s, c, admitted, ttl, out) == (after, d.stage)
  {
    hide Finish, SlotKey, TrimSpace, Directory.NormalizeLower;
    after, d := StepOnce(s, c, admitted, ttl, out);
    if d.stage.ReleaseNameRead? { after, d := StepOnce(after, d, admitted, ttl, out); }
    after, d := StepOnce(after, d, admitted, ttl, out);
    after, d := Undo(after, d, admitted, ttl, out);
  }

  // ---------- what one undisturbed create comes to ----------

  /** The names are as before, or without the one key; what goes was a reservation, unless
      the create got past its commit. */
  predicate OnlyReservationGone(before: Directory.Entries, after: Directory.Entries, key: string, pastCommit: bool)
  {
    after == before ||
    (after == before - {key}
     && (key in before && before[key].value.state == Directory.Committed ==> pastCommit))
  }

  predicate ReservedFrom(before: Directory.Entries, names: Directory.Entries, c: Creator, ttl: int, out: Outside)
    requires c.stage.NameReserved?
  {
    Directory.ReserveKey(before, c.stage.claim.key, c.req.name, c.req.account, ttl, out.reserveAt, out.token)
    == (names, Directory.Ok(c.stage.claim))
  }

  /** What Cancel, and what Commit and then Release, leave of the names a claim was got from. */
  lemma ClaimIsUndone(before: Directory.Entries, names: Directory.Entries, c: Creator, ttl: int, out: Outside)
    requires c.stage.NameReserved? && ReservedFrom(before, names, c, ttl, out)
    requires c.req.account != "" && c.NameKey() == Some(c.stage.claim.key)
    ensures var claim := c.stage.claim;
      && OnlyReservationGone(before, Unclaimed(names, claim), claim.key, out.slotRemoved)
      && var (committed, result) := Directory.CommitClaim(names, claim, out.commitAt);
      && (result.Ok? ==>
            && claim.key in committed && committed[claim.key].value.state == Directory.Committed
            && committed[claim.key].value.owner == c.req.account
            && OnlyReservationGone(before, committed - {claim.key}, claim.key, true))
  {
    hide Directory.NormalizeLower, TrimSpace;
  }

  /** From the stored role on: a commit in time and a slot still there succeed, anything else
      takes the role and the slot away again. */
  lemma RoleComesTo(s: Stores, c: Creator, ttl: int, out: Outside)
    requires c.stage.RoleMade? && c.Key() in s.slots && s.slots[c.Key()] == c.stage.slot
    requires c.NameKey() == Some(c.stage.claim.key) && c.req.account != ""
    requires c.stage.role.value.name == TrimSpace(c.req.name)
    requires c.stage.role.value.playerID in s.roles && s.roles[c.stage.role.value.playerID] == c.stage.role
    requires var (names, result) := Directory.CommitClaim(s.names, c.stage.claim, out.commitAt);
      result.Ok? ==> c.stage.claim.key in names && names[c.stage.claim.key].value.owner == c.req.account
    ensures var (after, stage) := Finish(s, c, true, ttl, out);
      var (claim, role) := (c.stage.claim, c.stage.role);
      var (names, result) := Directory.CommitClaim(s.names, claim, out.commitAt);
      if result.Ok? && !out.slotRemoved then
        && stage == Succeeded(role) && after.roles == s.roles && after.names == names
        && after.slots == Put(s.slots, c.Key(), c.stage.slot.value.(playerID := role.value.playerID))
      else
        && stage.Failed? && after.slots == s.slots - {c.Key()} && after.roles == s.roles - {role.value.playerID}
        && after.names == if result.Ok? then names - {claim.key} else Unclaimed(names, claim)
  {
    hide Finish, SlotKey, TrimSpace, Directory.NormalizeLower, Unclaimed, Directory.CommitClaim;
    Directory.CommitRefusedKeeps(s.names, c.stage.claim, out.commitAt);
    var t, d := StepOnce(s, c, true, ttl, out);
    if d.stage.UndoRole? {
      t, d := StepOnce(t, d, true, ttl, out);
      t, d := UndoFromName(t, d, true, ttl, out);
    } else {
      t, d := StepOnce(t, d, true, ttl, out);
      if d.stage.ReleaseName? {
        Directory.NormalizeLowerIsIdempotent(c.req.name);
        t, d := UndoFromCommit(t, d, true, ttl, out);
      } else {
        Ended(t, d, true, ttl, out);
      }
    }
  }

  /** From the claim on: success is exactly a usable id, a commit in time and a slot that is
      still there; failure puts slot and role back and removes at most the reservation. */
  lemma ClaimedComesTo(s: Stores, c: Creator, names: Directory.Entries, ttl: int, out: Outside)
    requires c.stage.NameReserved? && c.Key() in s.slots && s.slots[c.Key()] == c.stage.slot
    requires c.NameKey() == Some(c.stage.claim.key)
    requires ReservedFrom(names, s.names, c, ttl, out) && c.req.account != ""
    ensures var (after, stage) := Finish(s, c, true, ttl, out);
      var claim := c.stage.claim;
      && (stage.Succeeded? || stage.Failed?)
      && (stage.Succeeded? <==>
            && out.id.Some? && out.id.value != 0 && out.id.value !in s.roles && !out.slotRemoved
            && Directory.CommitClaim(s.names, claim, out.commitAt).1.Ok?)
      && (stage.Failed? ==>
            && after.slots == s.slots - {c.Key()} && after.roles == s.roles
            && OnlyReservationGone(names, after.names, claim.key, out.slotRemoved))
      && (stage.Succeeded? ==>
            && after.slots == Put(s.slots, c.Key(), c.stage.slot.value.(playerID := out.id.value))
            && after.roles == s.roles[out.id.value := stage.role] && stage.role.value.playerID == out.id.value
            && claim.key in after.names && after.names[claim.key].value.state == Directory.Committed
            && after.names[claim.key].value.owner == c.req.account)
  {
    hide Finish, SlotKey, TrimSpace, Directory.NormalizeLower, ReservedFrom, OnlyReservationGone, Unclaimed,
         Directory.CommitClaim;
    ClaimIsUndone(names, s.names, c, ttl, out);
    var t, d := StepOnce(s, c, true, ttl, out);
    if d.stage.UndoName? {
      t, d := UndoFromName(t, d, true, ttl, out);
    } else {
      Directory.CommitRefusedKeeps(s.names, c.stage.claim, out.commitAt);
      RoleComesTo(t, d, ttl, out);
      assert t.roles - {out.id.value} == s.roles;
    }
  }

  lemma NameComesTo(s: Stores, c: Creator, a: Answer)
    requires c.stage.SlotTaken?
    ensures var (after, stage) := ReserveName(s, c, c.stage.slot, a);
      && (stage.NameReserved? ==> c.NameKey() == Some(stage.claim.key))
      && (!stage.NameReserved? ==> after.names == s.names)
  {
    hide Directory.NormalizeLower, TrimSpace;
  }

  /** An undisturbed create in full. It succeeds exactly when it is admitted, the slot is
      free, the name is free or already the account's, the id is usable and the claim is
      committed in time; when it does not, slots and roles are as before. */
  lemma CreateComesTo(s: Stores, req: Request, admitted: bool, ttl: int, out: Outside)
    requires admitted ==> req.account != ""
    ensures var c := Creator(req, Start);
      var (after, stage) := Finish(s, c, admitted, ttl, out);
      && (stage.Succeeded? <==>
            && admitted && c.Key() !in s.slots && c.NameKey().Some?
            && var key := c.NameKey().value;
               var (names, reserved) :=
                 Directory.ReserveKey(s.names, key, req.name, req.account, ttl, out.reserveAt, out.token);
            && reserved.Ok?
            && out.id.Some? && out.id.value != 0 && out.id.value !in s.roles && !out.slotRemoved
            && Directory.CommitClaim(names, reserved.value, out.commitAt).1.Ok?)
      && (!stage.Succeeded? ==>
            && stage.Failed? && after.slots == s.slots && after.roles == s.roles
            && (after.names == s.names ||
                (c.NameKey().Some? && OnlyReservationGone(s.names, after.names, c.NameKey().value, out.slotRemoved))))
      && (stage.Succeeded? ==>
            && after.slots == s.slots[c.Key() := Versioned(Slot(req.account, req.server, out.id.value), 2)]
            && after.roles == s.roles[out.id.value := stage.role] && stage.role.value.playerID == out.id.value
            && var key := c.NameKey().value;
               key in after.names && after.names[key].value.state == Directory.Committed
               && after.names[key].value.owner == req.account)
  {
    hide Finish, SlotKey, TrimSpace, Directory.NormalizeLower, OnlyReservationGone, Unclaimed, Directory.CommitClaim,
         Directory.ReserveKey;
    var c := Creator(req, Start);
    var t, d := StepOnce(s, c, admitted, ttl, out);
    if d.stage.Failed? {
      Ended(t, d, admitted, ttl, out);
    } else {
      assert t.slots - {c.Key()} == s.slots;
      NameComesTo(t, d, AnswerTo(d.stage, admitted, ttl, out));
      t, d := StepOnce(t, d, admitted, ttl, out);
      if d.stage.UndoSlot? {
        t, d := Undo(t, d, admitted, ttl, out);
      } else {
        ClaimedComesTo(t, d, s.names, ttl, out);
      }
    }
  }

  /** An account may give the role of another server a name it already has; but if that slot
      is removed just before the end, undoing the create releases the name from under the
      role that had it first. */
  lemma OwnNameIsShared(s: Stores, req: Request, key: string, ttl: int, out: Outside)
    requires req.account != "" && SlotKey(req.account, req.server) !in s.slots
    requires Directory.NormalizeLower(req.name) == Some(key) && key in s.names
    requires s.names[key].value.state == Directory.Committed && s.names[key].value.owner == req.account
    requires s.names[key].value.token != ""
    requires out.id.Some? && out.id.value != 0 && out.id.value !in s.roles
    ensures var (after, stage) := Finish(s, Creator(req, Start), true, ttl, out);
      if out.slotRemoved then stage.Failed? && after.names == s.names - {key}
      else stage.Succeeded? && after.names == s.names
  {
    hide Finish, SlotKey, TrimSpace, Directory.NormalizeLower, Unclaimed;
    var t, d := StepOnce(s, Creator(req, Start), true, ttl, out);
    t, d := StepOnce(t, d, true, ttl, out);
    t, d := StepOnce(t, d, true, ttl, out);
    RoleComesTo(t, d, ttl, out);
  }

  // ---------- the service ----------

  class Service {
    var slots: Store<string, Slot>
    var roles: Store<int, Role>
    const accounts: map<string, bool>
    const servers: map<int, ServerStatus>
    const names: Directory.DirectoryStore
    const claimTTL: int

    /** accounts says of each known account whether it is banned. */
    constructor (accounts: map<string, bool>, servers: map<int, ServerStatus>, names: Directory.DirectoryStore,
                 claimTTL: int)
      ensures slots == map[] && roles == map[] && this.accounts == accounts && this.servers == servers
      ensures this.names == names && this.claimTTL == if claimTTL <= 0 then 30 * NANOS else claimTTL
    {
      slots, roles := map[], map[];
      this.accounts, this.servers, this.names := accounts, servers, names;
      this.claimTTL := if claimTTL <= 0 then 30 * NANOS else claimTTL;
    }

    method ReleaseSlot(key: string, slot: Versioned<Slot>)
      modifies this`slots
      ensures slots == DeleteIf(old(slots), key, slot)
    {
      if key in slots && slots[key] == slot { slots := slots - {key}; }
    }

    method RollbackRole(stored: Versioned<Role>)
      modifies this`roles
      ensures roles == DeleteIf(old(roles), stored.value.playerID, stored)
    {
      if stored.value.playerID in roles && roles[stored.value.playerID] == stored {
        roles := roles - {stored.value.playerID};
      }
    }

    method Rollback(claim: Claim, key: string, slot: Versioned<Slot>)
      modifies this`slots, names
      ensures slots == DeleteIf(old(slots), key, slot) && names.entries == Unclaimed(old(names.entries), claim)
    {
      var ignored := names.Cancel(claim, names.entries);
      ReleaseSlot(key, slot);
    }

    ghost predicate Stored(s: Stores)
      reads this, names
    {
      s.slots == slots && s.names == names.entries && s.roles == roles
    }

    /** One caller's create is the machine's steps taken one after the other. A failure puts
        back the slots and the roles; of the names it can only have removed the entry it asked
        for, and one committed before only when the slot was removed under it. */
    method CreateRole(req: Request, out: Outside) returns (result: Result)
      requires claimTTL > 0
      modifies this`slots, this`roles, names
      ensures result.Ok? ==>
        && TrimSpace(req.account) != "" && out.nameAllowed
        && req.account in accounts && !accounts[req.account]
        && req.server in servers && servers[req.server] == Open
      ensures result.Ok? ==>
        && out.id == Some(result.role.playerID) && result.role.playerID != 0
        && result.role == Role(result.role.playerID, req.account, req.server, TrimSpace(req.name),
                               Unix(out.createAt), 0)
      ensures result == Err(AccountMissing) <==>
        TrimSpace(req.account) == "" || (out.nameAllowed && req.account !in accounts)
      ensures result == Err(NameInvalid) <==> TrimSpace(req.account) != "" && !out.nameAllowed
      ensures result == Err(IdentityDenied) <==>
        TrimSpace(req.account) != "" && out.nameAllowed && req.account in accounts && accounts[req.account]
      ensures result == Err(ServerInvalid) <==>
        && TrimSpace(req.account) != "" && out.nameAllowed && req.account in accounts && !accounts[req.account]
        && req.server !in servers
      ensures result == Err(ServerClosed) <==>
        && TrimSpace(req.account) != "" && out.nameAllowed && req.account in accounts && !accounts[req.account]
        && req.server in servers && servers[req.server] != Open
      ensures result == Err(RoleLimit) <==>
        && TrimSpace(req.account) != "" && out.nameAllowed && req.account in accounts && !accounts[req.account]
        && req.server in servers && servers[req.server] == Open
        && SlotKey(req.account, req.server) in old(slots)
      ensures result.Err? && result.error in {AccountMissing, NameInvalid, IdentityDenied, ServerInvalid, ServerClosed,
                                              RoleLimit} ==>
        slots == old(slots) && roles == old(roles) && names.entries == old(names.entries)
      ensures result == Err(NameTaken) ==>
        slots == old(slots) && names.entries == old(names.entries) && roles == old(roles)
      ensures result == Err(NameTaken) <==>
        && Admission(accounts, servers, req, out.nameAllowed).None? && SlotKey(req.account, req.server) !in old(slots)
        && Directory.NormalizeLower(req.name).Some?
        && var key := Directory.NormalizeLower(req.name).value;
           key in old(names.entries) && !old(names.entries)[key].value.Expired(out.reserveAt)
           && old(names.entries)[key].value.owner != req.account
      ensures
        var (after, stage) := Finish(Stores(old(slots), old(names.entries), old(roles), map[]), Creator(req, Start),
                                     Admission(accounts, servers, req, out.nameAllowed).None?, claimTTL, out);
        && Stored(after)
        && (result.Ok? <==> stage.Succeeded?) && (result.Ok? ==> result.role == stage.role.value)
    {
      hide Finish, SlotKey, TrimSpace, Directory.NormalizeLower, Admission;
      AdmissionMeaning(accounts, servers, req, out.nameAllowed);
      var refused := Admission(accounts, servers, req, out.nameAllowed);
      ghost var s, c := Stores(slots, names.entries, roles, map[]), Creator(req, Start);
      if refused.Some? {
        s, c := StepOnce(s, c, false, claimTTL, out);
        Ended(s, c, false, claimTTL, out);
        return Err(refused.value);
      }
      result := CreateAdmitted(req, out, s);
    }

    /** The part of a create from its admission to its claim on the name. */
    method CreateAdmitted(req: Request, out: Outside, ghost s0: Stores) returns (result: Result)
      requires claimTTL > 0 && Stored(s0) && req.account != ""
      modifies this`slots, this`roles, names
      ensures var (after, stage) := Finish(s0, Creator(req, Start), true, claimTTL, out);
        && Stored(after) && (result.Ok? <==> stage.Succeeded?) && (result.Ok? ==> result.role == stage.role.value)
      ensures result.Ok? ==>
        && out.id == Some(result.role.playerID) && result.role.playerID != 0
        && result.role == Role(result.role.playerID, req.account, req.server, TrimSpace(req.name),
                               Unix(out.createAt), 0)
      ensures result == Err(RoleLimit) <==> SlotKey(req.account, req.server) in old(slots)
      ensures result == Err(NameTaken) <==>
        && SlotKey(req.account, req.server) !in old(slots)
        && Directory.NormalizeLower(req.name).Some?
        && var key := Directory.NormalizeLower(req.name).value;
           key in old(names.entries) && !old(names.entries)[key].value.Expired(out.reserveAt)
           && old(names.entries)[key].value.owner != req.account
      ensures result == Err(RoleLimit) || result == Err(NameTaken) ==>
        slots == old(slots) && roles == old(roles) && names.entries == old(names.entries)
      ensures result.Err? ==>
        result.error.NameRefused? || result.error in {RoleLimit, NameTaken, AllocatorFailed, ZeroPlayerID, Conflict}
    {
      hide Finish, SlotKey, TrimSpace, Directory.NormalizeLower, Directory.ReserveKey, Directory.CommitClaim,
           Directory.DecideCancel, Directory.DecideRelease, Unclaimed;
      ghost var s, c := StepOnce(s0, Creator(req, Start), true, claimTTL, out);
      var key := SlotKey(req.account, req.server);
      if key in slots {
        Ended(s, c, true, claimTTL, out);
        return Err(RoleLimit);
      }
      slots := Put(slots, key, Slot(req.account, req.server, 0));
      var slot := slots[key];
      s, c := StepOnce(s, c, true, claimTTL, out);
      var reserved := names.Reserve(req.name, req.account, claimTTL, out.reserveAt, out.token);
      if reserved.Err? {
        s, c := Undo(s, c, true, claimTTL, out);
        ReleaseSlot(key, slot);
        return Err(if reserved.error.KeyTaken? then NameTaken else NameRefused(reserved.error));
      }
      result := CreateClaimed(req, slot, reserved.value, out, s, c);
    }

    /** The rest of a create, from the moment it has its claim on the name. */
    method CreateClaimed(req: Request, slot: Versioned<Slot>, claim: Claim, out: Outside, ghost s0: Stores,
                         ghost c0: Creator)
      returns (result: Result)
      requires Stored(s0) && c0 == Creator(req, NameReserved(slot, claim))
      requires Directory.NormalizeLower(req.name).Some?
      modifies this`slots, this`roles, names
      ensures var (after, stage) := Finish(s0, c0, true, claimTTL, out);
        && Stored(after) && (result.Ok? <==> stage.Succeeded?) && (result.Ok? ==> result.role == stage.role.value)
      ensures result.Err? ==> result.error.NameRefused? || result.error in {AllocatorFailed, ZeroPlayerID, Conflict}
      ensures result.Ok? ==>
        && out.id == Some(result.role.playerID) && result.role.playerID != 0
        && result.role == Role(result.role.playerID, req.account, req.server, TrimSpace(req.name),
                               Unix(out.createAt), 0)
      ensures result == Err(AllocatorFailed) <==> out.id.None?
      ensures result == Err(ZeroPlayerID) <==> out.id == Some(0)
      ensures out.id.Some? && out.id.value != 0 && out.id.value in old(roles) ==> result == Err(Conflict)
    {
      hide Finish, SlotKey, TrimSpace, Directory.NormalizeLower, Directory.ReserveKey, Directory.CommitClaim,
           Directory.DecideCancel, Directory.DecideRelease, Unclaimed;
      ghost var adm := true;
      var key := SlotKey(req.account, req.server);
      ghost var s, c := StepOnce(s0, c0, adm, claimTTL, out);
      if out.id.None? || out.id.value == 0 || out.id.value in roles {
        s, c := UndoFromName(s, c, adm, claimTTL, out);
        Rollback(claim, key, slot);
        return Err(if out.id.None? then AllocatorFailed else if out.id.value == 0 then ZeroPlayerID else Conflict);
      }
      var id := out.id.value;
      var role := Role(id, req.account, req.server, TrimSpace(req.name), Unix(out.createAt), 0);
      roles := Put(roles, id, role);
      Directory.NormalizeLowerIsIdempotent(req.name);
      result := CommitRole(req, slot, claim, roles[id], out, s, c);
    }

    /** The rest of a create once its role is stored: the name's commit and the slot, or the
        undoing of everything. */
    method CommitRole(req: Request, slot: Versioned<Slot>, claim: Claim, stored: Versioned<Role>, out: Outside,
                      ghost s0: Stores, ghost c0: Creator)
      returns (result: Result)
      requires Stored(s0) && c0 == Creator(req, RoleMade(slot, claim, stored))
      requires Directory.NormalizeLower(stored.value.name).Some?
      modifies this`slots, this`roles, names
      ensures var (after, stage) := Finish(s0, c0, true, claimTTL, out);
        && Stored(after) && (result.Ok? <==> stage.Succeeded?) && (result.Ok? ==> result.role == stage.role.value)
      ensures result.Err? ==> result.error.NameRefused? || result.error == Conflict
      ensures var committed := Directory.CommitClaim(old(names.entries), claim, out.commitAt).1;
        && (committed.Err? ==> result == Err(NameRefused(committed.error)))
        && (committed.Ok? && out.slotRemoved ==> result == Err(Conflict))
      ensures result.Ok? ==> result.role == stored.value
    {
      hide Finish, SlotKey, TrimSpace, Directory.NormalizeLower, Directory.ReserveKey, Directory.CommitClaim,
           Directory.DecideCancel, Directory.DecideRelease, Unclaimed;
      ghost var adm := true;
      var key := SlotKey(req.account, req.server);
      ghost var s, c := StepOnce(s0, c0, adm, claimTTL, out);
      var committed := names.Commit(claim, out.commitAt);
      if committed.Err? {
        s, c := StepOnce(s, c, adm, claimTTL, out);
        s, c := UndoFromName(s, c, adm, claimTTL, out);
        RollbackRole(stored);
        Rollback(claim, key, slot);
        return Err(NameRefused(committed.error));
      }
      if out.slotRemoved { slots := slots - {key}; }
      s, c := StepOnce(s, c, adm, claimTTL, out);
      if key !in slots {
        s, c := UndoFromCommit(s, c, adm, claimTTL, out);
        var ignored := names.Release(stored.value.name, req.account, names.entries);
        RollbackRole(stored);
        ReleaseSlot(key, slot);
        return Err(Conflict);
      }
      Ended(s, c, adm, claimTTL, out);
      slots := Put(slots, key, slots[key].value.(playerID := stored.value.playerID));
      return Ok(stored.value);
    }
  }
}
