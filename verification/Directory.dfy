/** service/directory: unique keys taken by a reservation that lapses and a commit that does not. */
module Directory {
  import opened Clock
  import opened Text
  import opened VersionStore

  datatype State = Reserved | Committed

  datatype Entry = Entry(key: string, raw: string, owner: string, state: State, token: string,
                         expiresAt: int, reservedAt: int, committedAt: int)
  {
    /** A committed entry never expires. */
    predicate Expired(now: int) { state != Committed && expiresAt != 0 && Unix(now) >= expiresAt }
  }

  datatype Claim = Claim(key: string, owner: string, token: string, expiresAt: int)

  datatype DirectoryError = KeyEmpty | OwnerEmpty | KeyTaken | ClaimNotFound | ClaimStale | OwnerMismatch

  datatype Result<+T> = Ok(value: T) | Err(error: DirectoryError)

  type Entries = Store<string, Entry>

  // ---------- keys ----------

  function LowerChar(c: char): char { if 'A' <= c <= 'Z' then (c as int + 32) as char else c }

  function Lower(s: string): (t: string)
    ensures |t| == |s|
  {
    seq(|s|, i requires 0 <= i < |s| => LowerChar(s[i]))
  }

  /** The common normalizer: surrounding space and letter case do not tell two keys apart. */
  function NormalizeLower(raw: string): (key: Option<string>)
    ensures key != Some("")
  {
    var trimmed := TrimSpace(raw);
    if trimmed == "" then None else Some(Lower(trimmed))
  }

  predicate Trimmed(s: string) { s != "" ==> !IsSpace(s[0]) && !IsSpace(s[|s| - 1]) }

  lemma TrimSpaceTrims(s: string)
    ensures Trimmed(TrimSpace(s)) && TrimSpace(TrimSpace(s)) == TrimSpace(s)
  {
    var from, to := TrimSpaceMeaning(s);
    TrimSpaceTwice(s);
  }

  /** The same letter, in either case, or the same other character. */
  predicate SameFolded(c: char, d: char)
  {
    c == d || ('A' <= c <= 'Z' && d as int == c as int + 32) || ('A' <= d <= 'Z' && c as int == d as int + 32)
  }

  /** Two names are one key exactly when, trimmed, they differ in the case of letters only. */
  lemma OneKeyIffFoldedAlike(a: string, b: string)
    requires TrimSpace(a) != "" && TrimSpace(b) != ""
    ensures var s, t := TrimSpace(a), TrimSpace(b);
      NormalizeLower(a) == NormalizeLower(b) <==>
      |s| == |t| && forall i | 0 <= i < |s| :: SameFolded(s[i], t[i])
    ensures NormalizeLower(a).Some?
  {
    var s, t := TrimSpace(a), TrimSpace(b);
    if |s| == |t| && forall i | 0 <= i < |s| :: SameFolded(s[i], t[i]) {
      assert Lower(s) == Lower(t);
    } else if Lower(s) == Lower(t) {
      forall i | 0 <= i < |s|
        ensures SameFolded(s[i], t[i])
      {
        assert Lower(s)[i] == Lower(t)[i];
      }
    }
  }

  lemma LowerKeepsTrimmed(s: string)
    requires Trimmed(s)
    ensures Lower(Lower(s)) == Lower(s) && TrimSpace(Lower(s)) == Lower(s)
  {}

  /** Normalizing is settled: a key, or the trimmed display form, normalizes to the same key. */
  lemma NormalizeLowerIsIdempotent(raw: string)
    requires NormalizeLower(raw).Some?
    ensures NormalizeLower(NormalizeLower(raw).value) == NormalizeLower(raw)
    ensures NormalizeLower(TrimSpace(raw)) == NormalizeLower(raw)
  {
    hide TrimSpace, Lower;
    TrimSpaceTrims(raw);
    LowerKeepsTrimmed(TrimSpace(raw));
  }

  // ---------- the four writes, on values ----------

  /** The stored entries and the claim handed back; a live entry of the same owner is handed
      back unchanged, so a repeated reservation shares the first one's claim. */
  function ReserveKey(s: Entries, key: string, raw: string, owner: string, ttl: int, now: int, token: string)
    : (Entries, Result<Claim>)
  {
    if key in s && !s[key].value.Expired(now) then
      var current := s[key].value;
      if current.owner != owner then (s, Err(KeyTaken))
      else (s, Ok(Claim(key, owner, current.token, if current.state == Committed then 0 else current.expiresAt)))
    else
      (Put(s, key, Entry(key, TrimSpace(raw), owner, Reserved, token, Unix(now + ttl), Unix(now), 0)),
       Ok(Claim(key, owner, token, Unix(now + ttl))))
  }

  function CommitClaim(s: Entries, claim: Claim, now: int): (Entries, Result<Entry>)
  {
    if claim.key == "" then (s, Err(KeyEmpty))
    else if claim.token == "" then (s, Err(ClaimNotFound))
    else if claim.key !in s then (s, Err(ClaimNotFound))
    else
      var current := s[claim.key].value;
      if current.token != claim.token then (s, Err(ClaimStale))
      else if current.state == Committed then (s, Ok(current))
      else if current.Expired(now) then (s, Err(ClaimNotFound))
      else
        var next := current.(state := Committed, expiresAt := 0, committedAt := Unix(now));
        (Put(s, claim.key, next), Ok(next))
  }

  /** What Cancel decides on what it reads: done already, refused, or this pair is to go. */
  datatype Decision = Done | Refused(error: DirectoryError) | Remove(seen: Versioned<Entry>)

  function DecideCancel(s: Entries, claim: Claim): Decision
  {
    if claim.key == "" then Refused(KeyEmpty)
    else if claim.key !in s || s[claim.key].value.token != claim.token then Done
    else if s[claim.key].value.state == Committed then Refused(ClaimStale)
    else Remove(s[claim.key])
  }

  function DecideRelease(s: Entries, key: string, owner: string): Decision
  {
    if owner == "" then Refused(OwnerEmpty)
    else if key !in s then Done
    else if s[key].value.owner != owner then Refused(OwnerMismatch)
    else Remove(s[key])
  }

  /** A reservation of a free key is undone by Cancel, and by Release after a Commit. */
  lemma ReserveIsUndone(s: Entries, key: string, raw: string, owner: string, ttl: int, now: int, token: string,
                        later: int)
    requires key != "" && token != "" && owner != "" && key !in s
    ensures var (reserved, result) := ReserveKey(s, key, raw, owner, ttl, now, token);
      && result.Ok?
      && DecideCancel(reserved, result.value) == Remove(reserved[key])
      && DeleteIf(reserved, key, reserved[key]) == s
      && var (committed, done) := CommitClaim(reserved, result.value, later);
      && (done.Ok? <==> Unix(now + ttl) == 0 || Unix(later) < Unix(now + ttl))
      && (done.Ok? ==> DecideRelease(committed, key, owner) == Remove(committed[key])
                       && DeleteIf(committed, key, committed[key]) == s)
  {
    assert DeleteIf(ReserveKey(s, key, raw, owner, ttl, now, token).0, key,
                    ReserveKey(s, key, raw, owner, ttl, now, token).0[key]) == s;
  }

  lemma CommitRefusedKeeps(s: Entries, claim: Claim, now: int)
    ensures CommitClaim(s, claim, now).1.Err? ==> CommitClaim(s, claim, now).0 == s
    ensures var (after, result) := CommitClaim(s, claim, now);
      result.Ok? ==> claim.key in after && after[claim.key].value.state == Committed
                     && after[claim.key].value.owner == s[claim.key].value.owner
  {}

  // ---------- the directory ----------

  class DirectoryStore {
    var entries: Entries
    const defaultTTL: int

    constructor (defaultTTL: int)
      requires defaultTTL > 0
      ensures entries == map[] && this.defaultTTL == defaultTTL
    {
      entries := map[];
      this.defaultTTL := defaultTTL;
    }

    /** Fails with KeyTaken exactly when somebody else's live entry is in the way. */
    method Reserve(raw: string, owner: string, ttl: int, now: int, token: string) returns (result: Result<Claim>)
      modifies this
      ensures NormalizeLower(raw).None? ==> result == Err(KeyEmpty) && entries == old(entries)
      ensures NormalizeLower(raw).Some? && owner == "" ==> result == Err(OwnerEmpty) && entries == old(entries)
      ensures NormalizeLower(raw).Some? && owner != "" ==>
        var key := NormalizeLower(raw).value;
        && (entries, result) ==
            ReserveKey(old(entries), key, raw, owner, if ttl <= 0 then defaultTTL else ttl, now, token)
        && (result.Err? <==> key in old(entries) && !old(entries)[key].value.Expired(now)
                             && old(entries)[key].value.owner != owner)
        && (result.Err? ==> entries == old(entries))
        && (result.Err? ==> result == Err(KeyTaken))
        && (result.Ok? ==> key in entries && entries[key].value.owner == owner
                           && entries[key].value.token == result.value.token
                           && result.value.key == key && result.value.owner == owner
                           && (forall k | k != key :: k in entries <==> k in old(entries))
                           && (forall k | k != key && k in entries :: entries[k] == old(entries)[k]))
        && (key in old(entries) && !old(entries)[key].value.Expired(now) ==>
              && entries == old(entries)
              && (result.Ok? && entries[key].value.state == Committed ==> result.value.expiresAt == 0)
              && (result.Ok? && entries[key].value.state == Reserved ==>
                    result.value.expiresAt == entries[key].value.expiresAt))
        && (key !in old(entries) || old(entries)[key].value.Expired(now) ==>
              var lapse := Unix(now + if ttl <= 0 then defaultTTL else ttl);
              && result == Ok(Claim(key, owner, token, lapse))
              && entries[key].value == Entry(key, TrimSpace(raw), owner, Reserved, token, lapse, Unix(now), 0)
              && entries[key].version == if key in old(entries) then old(entries)[key].version + 1 else 1)
    {
      var normalized := NormalizeLower(raw);
      if normalized.None? { return Err(KeyEmpty); }
      if owner == "" { return Err(OwnerEmpty); }
      var key, life := normalized.value, if ttl <= 0 then defaultTTL else ttl;
      if key in entries && !entries[key].value.Expired(now) {
        var current := entries[key].value;
        if current.owner != owner { return Err(KeyTaken); }
        return Ok(Claim(key, owner, current.token, if current.state == Committed then 0 else current.expiresAt));
      }
      var next := Entry(key, TrimSpace(raw), owner, Reserved, token, Unix(now + life), Unix(now), 0);
      entries := Put(entries, key, next);
      return Ok(Claim(key, owner, token, Unix(now + life)));
    }

    /** Succeeds exactly when the entry carries the claim's token and is committed or live. */
    method Commit(claim: Claim, now: int) returns (result: Result<Entry>)
      modifies this
      ensures (entries, result) == CommitClaim(old(entries), claim, now)
      ensures result.Ok? <==>
        && claim.key != "" && claim.token != "" && claim.key in old(entries)
        && old(entries)[claim.key].value.token == claim.token
        && !old(entries)[claim.key].value.Expired(now)
      ensures result.Ok? ==> claim.key in entries && entries[claim.key].value == result.value
                             && result.value.state == Committed
      ensures result.Err? ==> entries == old(entries)
      ensures result.Ok? ==>
        var before := old(entries)[claim.key];
        if before.value.state == Committed then entries == old(entries)
        else entries == old(entries)[claim.key := Versioned(
            before.value.(state := Committed, expiresAt := 0, committedAt := Unix(now)), before.version + 1)]
      ensures result == Err(KeyEmpty) <==> claim.key == ""
      ensures result == Err(ClaimStale) <==>
        claim.key != "" && claim.token != "" && claim.key in old(entries)
        && old(entries)[claim.key].value.token != claim.token
    {
      if claim.key == "" { return Err(KeyEmpty); }
      if claim.token == "" || claim.key !in entries { return Err(ClaimNotFound); }
      var current := entries[claim.key].value;
      if current.token != claim.token { return Err(ClaimStale); }
      if current.state == Committed { return Ok(current); }
      if current.Expired(now) { return Err(ClaimNotFound); }
      current := current.(state := Committed, expiresAt := 0, committedAt := Unix(now));
      entries := Put(entries, claim.key, current);
      return Ok(current);
    }

    /** Between the read and the delete others may have left the store as meanwhile says. */
    method Cancel(claim: Claim, meanwhile: Entries) returns (error: Option<DirectoryError>)
      modifies this
      ensures match DecideCancel(old(entries), claim)
        case Done => error == None && entries == old(entries)
        case Refused(e) => error == Some(e) && entries == old(entries)
        case Remove(seen) => error == None && entries == DeleteIf(meanwhile, claim.key, seen)
      ensures error == Some(KeyEmpty) <==> claim.key == ""
      ensures error == Some(ClaimStale) <==>
        claim.key != "" && claim.key in old(entries) && old(entries)[claim.key].value.token == claim.token
        && old(entries)[claim.key].value.state == Committed
      ensures error == None && claim.key in old(entries) && old(entries)[claim.key].value.token == claim.token ==>
        entries == if claim.key in meanwhile && meanwhile[claim.key] == old(entries)[claim.key]
                   then meanwhile - {claim.key} else meanwhile
      ensures claim.key !in old(entries) || old(entries)[claim.key].value.token != claim.token ==>
        entries == old(entries)
    {
      if claim.key == "" { return Some(KeyEmpty); }
      if claim.key !in entries { return None; }
      var current := entries[claim.key];
      if current.value.token != claim.token { return None; }
      if current.value.state == Committed { return Some(ClaimStale); }
      entries := meanwhile;
      if claim.key in entries && entries[claim.key] == current { entries := entries - {claim.key}; }
      return None;
    }

    /** A lapsed reservation reads as absent. */
    method Lookup(raw: string, now: int) returns (result: Result<Option<Entry>>)
      ensures NormalizeLower(raw).None? <==> result == Err(KeyEmpty)
      ensures result.Ok? <==> NormalizeLower(raw).Some?
      ensures result.Ok? ==>
        var key := NormalizeLower(raw).value;
        result.value == if key in entries && !entries[key].value.Expired(now) then Some(entries[key].value) else None
    {
      var key := NormalizeLower(raw);
      if key.None? { return Err(KeyEmpty); }
      if key.value !in entries { return Ok(None); }
      if entries[key.value].value.Expired(now) { return Ok(None); }
      return Ok(Some(entries[key.value].value));
    }

    /** Removes the entry for its owner only, and says so when it changed in between. */
    method Release(raw: string, owner: string, meanwhile: Entries) returns (error: Option<DirectoryError>)
      modifies this
      ensures NormalizeLower(raw).None? ==> error == Some(KeyEmpty) && entries == old(entries)
      ensures NormalizeLower(raw).Some? ==>
        var key := NormalizeLower(raw).value;
        match DecideRelease(old(entries), key, owner)
        case Done => error == None && entries == old(entries)
        case Refused(e) => error == Some(e) && entries == old(entries)
        case Remove(seen) =>
          && entries == DeleteIf(meanwhile, key, seen)
          && (error.None? <==> key in meanwhile && meanwhile[key] == seen)
          && (error.Some? ==> error == Some(OwnerMismatch) && entries == meanwhile)
      ensures NormalizeLower(raw).Some? && owner == "" ==> error == Some(OwnerEmpty) && entries == old(entries)
      ensures NormalizeLower(raw).Some? && owner != "" ==>
        var key := NormalizeLower(raw).value;
        && (key !in old(entries) ==> error == None && entries == old(entries))
        && (key in old(entries) && old(entries)[key].value.owner != owner ==>
              error == Some(OwnerMismatch) && entries == old(entries))
        && (key in old(entries) && old(entries)[key].value.owner == owner ==>
              entries == if key in meanwhile && meanwhile[key] == old(entries)[key] then meanwhile - {key}
                         else meanwhile)
    {
      var key := NormalizeLower(raw);
      if key.None? { return Some(KeyEmpty); }
      if owner == "" { return Some(OwnerEmpty); }
      if key.value !in entries { return None; }
      var current := entries[key.value];
      if current.value.owner != owner { return Some(OwnerMismatch); }
      entries := meanwhile;
      if key.value !in entries || entries[key.value] != current { return Some(OwnerMismatch); }
      entries := entries - {key.value};
      return None;
    }
  }

  // ---------- runs of many callers ----------

  /** A Cancel or a Release that has read its pair and has not deleted yet. */
  datatype Pending = ByCancel(claim: Claim, seen: Versioned<Entry>)
                   | ByRelease(key: string, owner: string, seen: Versioned<Entry>)

  /** The entries, what each caller is about to delete, and for whom each token was minted
      (history, not state). */
  datatype World = World(entries: Entries, pending: map<nat, Pending>, minted: map<string, (string, string)>)

  datatype Event =
    | Reserve(key: string, raw: string, owner: string, ttl: int, now: int, token: string)
    | Commit(claim: Claim, now: int)
    | ReadToCancel(caller: nat, claim: Claim)
    | ReadToRelease(caller: nat, key: string, owner: string)
    | Delete(caller: nat)

  function Step(w: World, e: Event): World
  {
    match e
    case Reserve(key, raw, owner, ttl, now, token) =>
      w.(entries := ReserveKey(w.entries, key, raw, owner, ttl, now, token).0,
         minted := w.minted[token := (key, owner)])
    case Commit(claim, now) => w.(entries := CommitClaim(w.entries, claim, now).0)
    case ReadToCancel(caller, claim) =>
      (match DecideCancel(w.entries, claim)
       case Remove(seen) => w.(pending := w.pending[caller := ByCancel(claim, seen)])
       case _ => w)
    case ReadToRelease(caller, key, owner) =>
      (match DecideRelease(w.entries, key, owner)
       case Remove(seen) => w.(pending := w.pending[caller := ByRelease(key, owner, seen)])
       case _ => w)
    case Delete(caller) =>
      if caller !in w.pending then w
      else match w.pending[caller]
        case ByCancel(claim, seen) =>
          w.(entries := DeleteIf(w.entries, claim.key, seen), pending := w.pending - {caller})
        case ByRelease(key, _, seen) =>
          w.(entries := DeleteIf(w.entries, key, seen), pending := w.pending - {caller})
  }

  function Run(w: World, events: seq<Event>): World
    decreases |events|
  {
    if events == [] then w else Run(Step(w, events[0]), events[1..])
  }

  /** What every caller about to delete once checked of the pair it read. */
  predicate Checked(w: World)
  {
    forall c | c in w.pending :: match w.pending[c]
      case ByCancel(claim, seen) => seen.value.state == Reserved && seen.value.token == claim.token
      case ByRelease(key, owner, seen) => seen.value.owner == owner
  }

  lemma StepKeepsChecked(w: World, e: Event)
    requires Checked(w)
    ensures Checked(Step(w, e))
  {}

  /** This event is the owner's own Release deleting exactly the stored pair. */
  predicate OwnRelease(w: World, e: Event, key: string)
    requires key in w.entries
  {
    && e.Delete? && e.caller in w.pending
    && w.pending[e.caller] == ByRelease(key, w.entries[key].value.owner, w.entries[key])
  }

  /** One step touches a committed entry only if it is its owner's own Release. */
  lemma StepKeepsCommitted(w: World, e: Event, key: string)
    requires Checked(w) && key in w.entries && w.entries[key].value.state == Committed
    ensures key in Step(w, e).entries && Step(w, e).entries[key] == w.entries[key] <==> !OwnRelease(w, e, key)
    ensures OwnRelease(w, e, key) ==> key !in Step(w, e).entries
  {}

  /** The very same pair is stored after every step of the run. */
  predicate KeptThroughout(w: World, events: seq<Event>, key: string, pair: Versioned<Entry>)
    decreases |events|
  {
    && key in w.entries && w.entries[key] == pair
    && (events != [] ==> KeptThroughout(Step(w, events[0]), events[1..], key, pair))
  }

  /** Some step of the run is the owner's own Release of this key. */
  predicate ReleasedByOwner(w: World, events: seq<Event>, key: string)
    decreases |events|
  {
    events != [] &&
    ((key in w.entries && OwnRelease(w, events[0], key)) || ReleasedByOwner(Step(w, events[0]), events[1..], key))
  }

  /** A committed entry is kept, same owner, token and version, in every run, unless its own
      owner releases it; old claims, lapsing reservations, racing cancels and releases by
      others never remove it. */
  lemma {:induction false} CommittedUntilReleased(w: World, events: seq<Event>, key: string)
    requires Checked(w) && key in w.entries && w.entries[key].value.state == Committed
    ensures KeptThroughout(w, events, key, w.entries[key]) <==> !ReleasedByOwner(w, events, key)
    decreases |events|
  {
    if events != [] {
      StepKeepsCommitted(w, events[0], key);
      StepKeepsChecked(w, events[0]);
      if !OwnRelease(w, events[0], key) {
        CommittedUntilReleased(Step(w, events[0]), events[1..], key);
      }
    }
  }

  /** While nobody's own release intervened, whoever asks next is told the key is taken. */
  lemma CommittedShutsOthersOut(w: World, events: seq<Event>, claim: Claim, now: int,
                                raw: string, other: string, ttl: int, later: int, token: string)
    requires Checked(w)
    requires CommitClaim(w.entries, claim, now).1.Ok?
    requires !ReleasedByOwner(Step(w, Commit(claim, now)), events, claim.key)
    ensures var owner := w.entries[claim.key].value.owner;
      var final := Run(Step(w, Commit(claim, now)), events).entries;
      && claim.key in final && final[claim.key].value.owner == owner && final[claim.key].value.token == claim.token
      && final[claim.key].value.state == Committed
      && (other != owner ==> ReserveKey(final, claim.key, raw, other, ttl, later, token) == (final, Err(KeyTaken)))
  {
    var committed := Step(w, Commit(claim, now));
    StepKeepsChecked(w, Commit(claim, now));
    CommittedUntilReleased(committed, events, claim.key);
    KeptAtTheEnd(committed, events, claim.key, committed.entries[claim.key]);
  }

  lemma {:induction false} KeptAtTheEnd(w: World, events: seq<Event>, key: string, pair: Versioned<Entry>)
    requires KeptThroughout(w, events, key, pair)
    ensures key in Run(w, events).entries && Run(w, events).entries[key] == pair
    decreases |events|
  {
    if events != [] { KeptAtTheEnd(Step(w, events[0]), events[1..], key, pair); }
  }

  // ---------- tokens ----------

  /** Every stored entry carries the token minted for its own key and owner. */
  predicate TokensTell(entries: Entries, minted: map<string, (string, string)>)
  {
    forall k | k in entries :: var e := entries[k].value;
      e.token in minted && minted[e.token] == (k, e.owner)
  }

  /** Tokens are minted once; claims are ones that Reserve handed out. */
  predicate Fair(w: World, e: Event)
  {
    match e
    case Reserve(_, _, _, _, _, token) => token !in w.minted
    case Commit(claim, _) => Genuine(w, claim)
    case ReadToCancel(_, claim) => Genuine(w, claim)
    case _ => true
  }

  predicate Genuine(w: World, claim: Claim)
  {
    claim.token in w.minted && w.minted[claim.token] == (claim.key, claim.owner)
  }

  predicate FairRun(w: World, events: seq<Event>)
    decreases |events|
  {
    events == [] || (Fair(w, events[0]) && FairRun(Step(w, events[0]), events[1..]))
  }

  /** A claim, however old, can commit or cancel only an entry of its own owner, and a lapsed
      entry is the only one that somebody else's reservation replaces. */
  lemma ClaimsReachOnlyTheirOwner(w: World, e: Event, key: string)
    requires Fair(w, e) && TokensTell(w.entries, w.minted) && PendingTells(w) && Checked(w)
    requires key in w.entries
    ensures var entry := w.entries[key].value;
      match e
      case Commit(claim, _) => claim.owner != entry.owner ==> Step(w, e).entries[key] == w.entries[key]
      case Reserve(_, _, owner, _, now, _) =>
        owner != entry.owner && !entry.Expired(now) ==> Step(w, e).entries[key] == w.entries[key]
      case Delete(c) => c in w.pending && w.pending[c].ByCancel? && w.pending[c].claim.owner != entry.owner ==>
        key in Step(w, e).entries && Step(w, e).entries[key] == w.entries[key]
      case _ => Step(w, e).entries[key] == w.entries[key]
    ensures key in Step(w, e).entries
            || (e.Delete? && e.caller in w.pending && w.pending[e.caller].seen == w.entries[key])
  {}

  /** Pairs about to be cancelled were minted for the canceller. */
  predicate PendingTells(w: World)
  {
    forall c | c in w.pending && w.pending[c].ByCancel? ::
      Genuine(w, w.pending[c].claim) && w.pending[c].seen.value.owner == w.pending[c].claim.owner
  }

  /** The hypotheses above hold in every run that starts from nothing. */
  lemma {:induction false} EveryRunIsAccounted(w: World, events: seq<Event>)
    requires Checked(w) && TokensTell(w.entries, w.minted) && PendingTells(w) && FairRun(w, events)
    ensures var final := Run(w, events);
      Checked(final) && TokensTell(final.entries, final.minted) && PendingTells(final)
    decreases |events|
  {
    if events != [] {
      StepKeepsChecked(w, events[0]);
      StepKeepsTokens(w, events[0]);
      EveryRunIsAccounted(Step(w, events[0]), events[1..]);
    }
  }

  lemma StepKeepsTokens(w: World, e: Event)
    requires TokensTell(w.entries, w.minted) && PendingTells(w) && Fair(w, e)
    ensures TokensTell(Step(w, e).entries, Step(w, e).minted) && PendingTells(Step(w, e))
  {
    if e.Reserve? {
      assert Step(w, e).pending == w.pending;
    }
  }

  /** Whatever claim Reserve hands out, new or shared, satisfies what Fair asks of claims. */
  lemma ReserveHandsGenuineClaims(w: World, e: Event)
    requires e.Reserve? && TokensTell(w.entries, w.minted) && Fair(w, e)
    ensures var result := ReserveKey(w.entries, e.key, e.raw, e.owner, e.ttl, e.now, e.token).1;
      result.Ok? ==> Genuine(Step(w, e), result.value) && result.value.owner == e.owner
  {}

  lemma RunNothing(w: World)
    ensures Run(w, []) == w && FairRun(w, [])
  {}

  lemma Prepend(w: World, e: Event, rest: seq<Event>)
    requires Fair(w, e) && FairRun(Step(w, e), rest)
    ensures Run(w, [e] + rest) == Run(Step(w, e), rest) && FairRun(w, [e] + rest)
  {
    assert ([e] + rest)[1..] == rest;
  }

  /** Comparing versions alone would not do: deleting restarts them, so a caller can hold a
      pair whose version is the stored one while the entry is another owner's, committed. */
  lemma VersionsRepeat() returns (events: seq<Event>, caller: nat, key: string)
    ensures var w := World(map[], map[], map[]);
      var final := Run(w, events);
      && FairRun(w, events) && caller in final.pending && key in final.entries
      && final.pending[caller].ByCancel? && final.pending[caller].claim.key == key
      && final.pending[caller].seen.version == final.entries[key].version
      && final.pending[caller].seen.value.owner != final.entries[key].value.owner
      && final.entries[key].value.state == Committed
  {
    hide Run, FairRun, TrimSpace;
    var w0 := World(map[], map[], map[]);
    var a, b := Claim("k", "a", "1", 9), Claim("k", "b", "2", 9);
    var e0, e1 := Reserve("k", "k", "a", NANOS, 0, "0"), Reserve("k", "k", "a", 9 * NANOS, NANOS, "1");
    var e2, e3, e4 := ReadToCancel(0, a), ReadToCancel(1, a), Delete(1);
    var e5, e6 := Reserve("k", "k", "b", 9 * NANOS, 0, "2"), Commit(b, 0);
    var w2 := Step(Step(w0, e0), e1);
    var seen := Versioned(Entry("k", TrimSpace("k"), "a", Reserved, "1", 10, 1, 0), 2);
    var minted := map["0" := ("k", "a"), "1" := ("k", "a")];
    assert w2 == World(map["k" := seen], map[], minted);
    var w4 := Step(Step(w2, e2), e3);
    assert w4 == World(map["k" := seen], map[0 := ByCancel(a, seen), 1 := ByCancel(a, seen)], minted);
    var w5 := Step(w4, e4);
    assert w5 == World(map[], map[0 := ByCancel(a, seen)], minted);
    var w7 := Step(Step(w5, e5), e6);
    RunNothing(w7);
    Prepend(Step(w5, e5), e6, []);
    var r5 := [e5] + ([e6] + []);
    Prepend(w5, e5, [e6] + []);
    Prepend(w4, e4, r5);
    var r3 := [e3] + ([e4] + r5);
    Prepend(Step(w2, e2), e3, [e4] + r5);
    Prepend(w2, e2, r3);
    Prepend(Step(w0, e0), e1, [e2] + r3);
    Prepend(w0, e0, [e1] + ([e2] + r3));
    events, caller, key := [e0] + ([e1] + ([e2] + r3)), 0, "k";
    assert Run(w0, events) == w7 && FairRun(w0, events);
    assert w7.pending[0] == ByCancel(a, seen) && w7.entries["k"].version == 2;
  }
}
