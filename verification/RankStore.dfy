/** service/rank/redis_store.go: the two scripts, the arithmetic of a submit, the submit retry
    loop and the reads. */
module RankStore {
  import opened Text
  import opened Ordering
  import opened RankMember
  import opened RankBoard

  const MAX_BRIEF_BYTES := 512
  const MAX_APPLIED_REQUESTS := 8
  const MAX_SUBMIT_ATTEMPTS := 8

  datatype UpdateMode = Set | Max | Add

  // ---------- the ring of applied request ids ----------

  const COMMA: char := ','

  /** The last eight of a list. */
  function Newest(log: seq<string>): (w: seq<string>)
    ensures |w| == if |log| < MAX_APPLIED_REQUESTS then |log| else MAX_APPLIED_REQUESTS
    ensures w == log[|log| - |w|..]
  {
    if |log| > MAX_APPLIED_REQUESTS then log[|log| - MAX_APPLIED_REQUESTS..] else log
  }

  function RingTokens(ring: string): seq<string> { if ring == "" then [] else Split(ring, COMMA) }

  predicate RingContains(ring: string, id: string)
  {
    ring != "" && id != "" && id in Split(ring, COMMA)
  }

  function AppendRing(ring: string, id: string): string
  {
    if id == "" then ring
    else
      var tokens := RingTokens(ring);
      if id in tokens then ring
      else Join(Newest(tokens + [id]), COMMA)
  }

  predicate PlainId(id: string) { id != "" && COMMA !in id }

  /** A ring that holds a log's newest ids, comma joined. */
  function RingOf(log: seq<string>): string { Join(Newest(log), COMMA) }

  lemma JoinOfIds(ids: seq<string>)
    requires |ids| >= 1 && forall id | id in ids :: PlainId(id)
    ensures Join(ids, COMMA) != "" && Split(Join(ids, COMMA), COMMA) == ids
  {
    assert ids[0] in ids;
    SplitJoin(ids, COMMA);
  }

  lemma RingHoldsNewest(log: seq<string>)
    requires forall x | x in log :: PlainId(x)
    ensures RingTokens(RingOf(log)) == Newest(log)
  {
    if log != [] { JoinOfIds(Newest(log)); }
  }

  lemma NewestOfLonger(log: seq<string>, id: string)
    ensures Newest(log + [id]) == Newest(Newest(log) + [id])
  {
    if |log| > MAX_APPLIED_REQUESTS {
      assert log + [id] == log[..|log| - MAX_APPLIED_REQUESTS] + (Newest(log) + [id]);
    }
  }

  /** For comma-free ids the string ring is exactly a window of eight over the applied log. */
  lemma RingIsWindow(log: seq<string>, id: string)
    requires (forall x | x in log :: PlainId(x)) && PlainId(id)
    ensures RingContains(RingOf(log), id) <==> id in Newest(log)
    ensures id !in Newest(log) ==> AppendRing(RingOf(log), id) == RingOf(log + [id])
  {
    RingHoldsNewest(log);
    NewestOfLonger(log, id);
    hide Newest, RingOf, Join, Split;
  }

  lemma RingTokensArePlain(ring: string)
    ensures forall p :: p in RingTokens(ring) ==> COMMA !in p
  {
    if ring != "" { SplitHasNoSep(ring, COMMA); }
  }

  lemma NewestEndsAlike(log: seq<string>)
    requires |log| > 0
    ensures |Newest(log)| > 0 && Newest(log)[|Newest(log)| - 1] == log[|log| - 1]
    ensures forall x | x in Newest(log) :: x in log
  {}

  lemma JoinedIdIsFound(tokens: seq<string>, id: string)
    requires PlainId(id) && |tokens| > 0 && tokens[|tokens| - 1] == id
    requires forall p :: p in tokens ==> COMMA !in p
    ensures RingContains(Join(tokens, COMMA), id)
  {
    SplitJoin(tokens, COMMA);
    assert Split("", COMMA) == [""] && tokens != [""];
  }

  /** Recording an id makes it recognisable exactly when it holds no comma. */
  lemma RecordedIffCommaFree(ring: string, id: string)
    requires id != ""
    ensures RingContains(AppendRing(ring, id), id) <==> COMMA !in id
    ensures RingContains(ring, id) ==> AppendRing(ring, id) == ring
  {
    hide Split, Join, Newest;
    RingTokensArePlain(AppendRing(ring, id));
    RingTokensArePlain(ring);
    if COMMA !in id && id !in RingTokens(ring) {
      var tokens := RingTokens(ring) + [id];
      NewestEndsAlike(tokens);
      JoinedIdIsFound(Newest(tokens), id);
    }
  }

  // ---------- the scripts ----------

  datatype SwapReply = SwapReply(after: Redis, applied: bool, current: string)

  function MemberOf(r: Redis, owner: int64): string { if owner in r.members then r.members[owner] else "" }
  function RingField(r: Redis, owner: int64): string { if owner in r.rings then r.rings[owner] else "" }

  /** swapScript, with "" for "no member expected" and for "no request id". */
  function SwapScript(r: Redis, owner: int64, expected: string, next: string, id: string, ring: string): SwapReply
  {
    if expected == "" && owner in r.members then SwapReply(r, false, r.members[owner])
    else if expected != "" && (owner !in r.members || r.members[owner] != expected) then
      SwapReply(r, false, MemberOf(r, owner))
    else
      var zset := if expected == "" then r.zset else r.zset - {expected};
      SwapReply(Redis(zset + {next}, r.members[owner := next],
                      if id == "" then r.rings else r.rings[owner := ring]), true, next)
  }

  /** removeScript. */
  function RemoveScript(r: Redis, owner: int64): Redis
  {
    if owner !in r.members then r
    else Redis(r.zset - {r.members[owner]}, r.members - {owner}, r.rings - {owner})
  }

  /** A swap goes through exactly when the owner's member is the one expected. */
  lemma SwapIsCompareAndSwap(r: Redis, owner: int64, expected: string, next: string, id: string, ring: string)
    requires Consistent(r)
    ensures var s := SwapScript(r, owner, expected, next, id, ring);
      && (s.applied <==> MemberOf(r, owner) == expected)
      && (!s.applied ==> s.after == r && s.current == MemberOf(r, owner))
      && (s.applied ==> MemberOf(s.after, owner) == next && s.current == next)
  {
    if owner in r.members { MemberNotEmpty(r, owner); }
  }

  lemma MemberNotEmpty(r: Redis, owner: int64)
    requires Consistent(r) && owner in r.members
    ensures r.members[owner] != ""
  {
    MembersAreScores(r, owner, owner);
    EntryNotEmpty(Scores(r)[owner]);
  }

  /** The swap, the removal and the reset keep the sorted set equal to the set of members. */
  lemma SwapKeepsConsistent(r: Redis, owner: int64, expected: string, next: string, id: string, ring: string)
    requires Consistent(r) && owner != 0
    requires EntryOf(next, owner) || (next == expected && expected != "")
    ensures Consistent(SwapScript(r, owner, expected, next, id, ring).after)
  {
    hide EncodeEntry, DecodeEntry;
    var s := SwapScript(r, owner, expected, next, id, ring);
    if s.applied {
      if expected != "" { assert EntryOf(r.members[owner], owner); }
      OthersKeepTheirMembers(r, owner);
      forall x
        ensures x in s.after.zset <==> exists o :: o in s.after.members && s.after.members[o] == x
      {
        if x in s.after.zset && x != next {
          var o :| o in r.members && r.members[o] == x;
          assert o in s.after.members && s.after.members[o] == x;
        }
        if o :| o in s.after.members && s.after.members[o] == x {
          assert o == owner || (o in r.members && r.members[o] == x);
        }
        assert s.after.members[owner] == next;
      }
    }
  }

  lemma OthersKeepTheirMembers(r: Redis, owner: int64)
    requires Consistent(r)
    ensures forall o | o in r.members && o != owner && owner in r.members :: r.members[o] != r.members[owner]
  {
    forall o | o in r.members && o != owner && owner in r.members
      ensures r.members[o] != r.members[owner]
    {
      assert EntryOf(r.members[o], o) && EntryOf(r.members[owner], owner);
    }
  }

  lemma RemoveKeepsConsistent(r: Redis, owner: int64)
    requires Consistent(r)
    ensures Consistent(RemoveScript(r, owner))
  {
    if owner in r.members {
      var after := RemoveScript(r, owner);
      OthersKeepTheirMembers(r, owner);
      forall x
        ensures x in after.zset <==> exists o :: o in after.members && after.members[o] == x
      {
        if x in after.zset {
          var o :| o in r.members && r.members[o] == x;
          assert o in after.members && after.members[o] == x;
        }
        if o :| o in after.members && after.members[o] == x {
          assert o in r.members && r.members[o] == x && o != owner;
        }
      }
    }
  }

  lemma RemoveTakesOneOwner(r: Redis, owner: int64)
    requires Consistent(r)
    ensures Consistent(RemoveScript(r, owner))
    ensures Scores(RemoveScript(r, owner)) == map o | o in Scores(r) && o != owner :: Scores(r)[o]
    ensures owner in r.members ==> RingField(RemoveScript(r, owner), owner) == ""
    ensures forall o | o != owner :: RingField(RemoveScript(r, owner), o) == RingField(r, o)
  {
    hide Consistent, DecodeEntry, EncodeEntry, Less;
    RemoveKeepsConsistent(r, owner);
    var after := RemoveScript(r, owner);
    forall o | o in after.members
      ensures Scores(after)[o] == Scores(r)[o]
    {
      MembersAreScores(after, o, o);
      MembersAreScores(r, o, o);
    }
  }

  // ---------- any interleaving ----------

  /** What any client can do to a board in one round trip; reads change nothing. */
  datatype Action =
    | SwapAction(owner: int64, expected: string, next: string, id: string, ring: string)
    | RemoveAction(owner: int64)
    | ResetAction

  /** The swaps a client can send: its own encoding of a score for that owner, or the member
      it read again, to record a request that changed nothing. */
  predicate WellFormed(a: Action)
  {
    match a
    case SwapAction(owner, expected, next, _, _) =>
      owner != 0 && (EntryOf(next, owner) || (next == expected && expected != ""))
    case RemoveAction(owner) => owner != 0
    case ResetAction => true
  }

  function Act(r: Redis, a: Action): Redis
  {
    match a
    case SwapAction(owner, expected, next, id, ring) => SwapScript(r, owner, expected, next, id, ring).after
    case RemoveAction(owner) => RemoveScript(r, owner)
    case ResetAction => EMPTY
  }

  function ActAll(r: Redis, actions: seq<Action>): Redis
    decreases |actions|
  {
    if actions == [] then r else ActAll(Act(r, actions[0]), actions[1..])
  }

  lemma ActKeepsConsistent(r: Redis, a: Action)
    requires Consistent(r) && WellFormed(a)
    ensures Consistent(Act(r, a))
  {
    hide EntryOf;
    match a {
      case SwapAction(owner, expected, next, id, ring) => SwapKeepsConsistent(r, owner, expected, next, id, ring);
      case RemoveAction(owner) => RemoveKeepsConsistent(r, owner);
      case ResetAction =>
    }
  }

  /** In every reachable board the sorted set is the set of members in the owner hash, each
      owner has one, and it decodes to that owner. */
  lemma {:induction false} BoardsStayConsistent(r: Redis, actions: seq<Action>)
    requires Consistent(r) && forall a | a in actions :: WellFormed(a)
    ensures Consistent(ActAll(r, actions))
    decreases |actions|
  {
    hide Consistent, Act, WellFormed;
    if actions != [] {
      ActKeepsConsistent(r, actions[0]);
      BoardsStayConsistent(Act(r, actions[0]), actions[1..]);
    }
  }

  /** A swap that meets the member it expects installs the new one, and the ring with it. */
  lemma SwapInstalls(r: Redis, owner: int64, stored: string, next: Score, id: string, ring: string)
    requires Consistent(r) && owner != 0 && next.owner == owner && MemberOf(r, owner) == stored
    ensures var s := SwapScript(r, owner, stored, EncodeEntry(next), id, ring);
      && s.applied && Consistent(s.after)
      && MemberOf(s.after, owner) == EncodeEntry(next)
      && RingField(s.after, owner) == (if id == "" then RingField(r, owner) else ring)
    ensures EntryOf(EncodeEntry(next), owner) && DecodeEntry(EncodeEntry(next)) == Ok(next)
  {
    EncodedIsEntry(next);
    DecodeUndoesEncode(next);
    hide EncodeEntry, DecodeEntry, Consistent, EntryOf;
    SwapIsCompareAndSwap(r, owner, stored, EncodeEntry(next), id, ring);
    SwapKeepsConsistent(r, owner, stored, EncodeEntry(next), id, ring);
  }

  // ---------- a submit ----------

  datatype Next = Next(score: Score, changed: bool) | Undecodable

  /** int64 addition wraps. */
  function AddWrap(a: int64, b: int64): int64
  {
    var n := a as int + b as int;
    if n >= TWO63 then n - TWO64 else if n < -TWO63 then n + TWO64 else n
  }

  function KeepBrief(next: Score, current: Score): Score
  {
    if |next.brief| == 0 then next.(brief := current.brief) else next
  }

  function NextScore(stored: string, incoming: Score, mode: UpdateMode): Next
  {
    if stored == "" then Next(incoming, true)
    else match DecodeEntry(stored)
      case Err(_) => Undecodable
      case Ok(current) =>
        match mode
        case Set => Next(KeepBrief(incoming, current), true)
        case Max =>
          if current.value > incoming.value || (current.value == incoming.value && current.tie <= incoming.tie)
          then Next(current, false)
          else Next(KeepBrief(incoming, current), true)
        case Add => Next(KeepBrief(incoming.(value := AddWrap(current.value, incoming.value)), current), true)
  }

  /** What each mode makes of the stored score: Set replaces it, Max keeps the better, the
      earlier tie deciding between equal values, and Add sums modulo 2^64. A submit without a
      brief keeps the stored one. */
  lemma NextScoreMeaning(stored: string, incoming: Score, mode: UpdateMode)
    ensures stored == "" ==> NextScore(stored, incoming, mode) == Next(incoming, true)
    ensures stored != "" && DecodeEntry(stored).Err? ==> NextScore(stored, incoming, mode) == Undecodable
    ensures stored != "" && DecodeEntry(stored).Ok? ==>
      var current, n := DecodeEntry(stored).score, NextScore(stored, incoming, mode);
      && n.Next?
      && (mode != Max ==> n.changed)
      && (mode == Max ==> (n.changed <==>
            incoming.value > current.value || (incoming.value == current.value && incoming.tie < current.tie)))
      && (!n.changed ==> n.score == current)
      && (n.changed ==>
            && n.score.owner == incoming.owner && n.score.tie == incoming.tie
            && n.score.brief == (if incoming.brief == [] then current.brief else incoming.brief)
            && (mode != Add ==> n.score.value == incoming.value)
            && (mode == Add ==> (n.score.value - current.value - incoming.value) % TWO64 == 0))
  {
    hide DecodeEntry;
  }

  lemma NextIsOwners(r: Redis, incoming: Score, mode: UpdateMode)
    requires Consistent(r)
    ensures NextScore(MemberOf(r, incoming.owner), incoming, mode).Next?
    ensures NextScore(MemberOf(r, incoming.owner), incoming, mode).score.owner == incoming.owner
  {
    hide DecodeEntry, EncodeEntry, Consistent, Scores;
    if incoming.owner in r.members { MembersAreScores(r, incoming.owner, incoming.owner); }
  }

  lemma EncodedIsEntry(s: Score)
    ensures EntryOf(EncodeEntry(s), s.owner)
  {
    DecodeUndoesEncode(s);
  }

  /** The member's own score with the position it has in the sorted set; position unknown (0)
      when the member is no longer there. */
  function EntryFor(r: Redis, member: string): Result<Entry>
  {
    if member == "" then Failure(NotFound)
    else match DecodeEntry(member)
      case Err(_) => Failure(Malformed)
      case Ok(score) =>
        match RevRank(r.zset, member)
        case None => Success(Entry(0, score))
        case Some(above) => Success(Entry(above + 1, score))
  }

  datatype Scope = Server | Group | Global | UnknownScope

  datatype BoardName = BoardName(id: string, scope: Scope, scopeID: int64, season: int64)
  {
    /** Only a global board has no scope id. */
    predicate Valid()
    {
      id != "" && scope != UnknownScope && (scope == Global <==> scopeID == 0) && season >= 0
    }
  }

  /** No mode stands for a mode the service does not know. */
  function ValidateSubmit(board: BoardName, score: Score, mode: Option<UpdateMode>, id: string): Option<RankError>
  {
    if !board.Valid() then Some(BoardInvalid)
    else if score.owner == 0 then Some(OwnerInvalid)
    else if mode.None? || |score.brief| > MAX_BRIEF_BYTES then Some(ScoreInvalid)
    else if mode == Some(Add) && id == "" then Some(RequestInvalid)
    else None
  }

  /** The board as one attempt meets it: at its read, at its swap, and when it reads the rank
      it answers. What changed in between is the other clients' doing. */
  datatype Moments = Moments(read: Redis, swap: Redis, answer: Redis)

  /** The board as the submit's own last round trip but the rank left it, and the answer. */
  datatype Submitted = Submitted(after: Redis, result: Result<Entry>)

  datatype Request = Request(score: Score, mode: UpdateMode, id: string)

  /** The attempts from the given one on. */
  function SubmitFrom(req: Request, env: seq<Moments>, attempt: nat): Submitted
    requires attempt <= |env| && |env| > 0
    decreases |env| - attempt
  {
    var owner := req.score.owner;
    if attempt == |env| then Submitted(env[attempt - 1].swap, Failure(Conflict))
    else
      var m := env[attempt];
      var stored, ring := MemberOf(m.read, owner), RingField(m.read, owner);
      if req.id != "" && RingContains(ring, req.id) then Submitted(m.read, EntryFor(m.answer, stored))
      else match NextScore(stored, req.score, req.mode)
        case Undecodable => Submitted(m.read, Failure(Malformed))
        case Next(next, changed) =>
          if !changed then
            var after := if req.id == "" then m.read
              else SwapScript(m.swap, owner, stored, stored, req.id, AppendRing(ring, req.id)).after;
            Submitted(after, EntryFor(m.answer, stored))
          else
            var s := SwapScript(m.swap, owner, stored, EncodeEntry(next), req.id, AppendRing(ring, req.id));
            if s.applied then Submitted(s.after, EntryFor(m.answer, EncodeEntry(next)))
            else SubmitFrom(req, env, attempt + 1)
  }

  predicate Replayed(req: Request, m: Moments)
  {
    req.id != "" && RingContains(RingField(m.read, req.score.owner), req.id)
  }

  predicate Changes(req: Request, r: Redis)
  {
    var n := NextScore(MemberOf(r, req.score.owner), req.score, req.mode);
    n.Next? && n.changed
  }

  /** An attempt is lost when it wanted to write and the member moved under it. */
  predicate Lost(req: Request, m: Moments)
  {
    !Replayed(req, m) && Changes(req, m.read)
    && MemberOf(m.read, req.score.owner) != MemberOf(m.swap, req.score.owner)
  }

  ghost predicate AllConsistent(env: seq<Moments>)
  {
    forall m | m in env :: Consistent(m.read) && Consistent(m.swap) && Consistent(m.answer)
  }

  lemma AnswersAreNoConflict(r: Redis, member: string)
    ensures EntryFor(r, member) != Failure(Conflict)
  {}

  /** A submit reports a conflict exactly when it lost every compare-and-swap; it then wrote
      nothing. */
  lemma {:induction false} ConflictIffEveryAttemptLost(req: Request, env: seq<Moments>, attempt: nat)
    requires attempt <= |env| && |env| > 0 && AllConsistent(env)
    ensures SubmitFrom(req, env, attempt).result == Failure(Conflict) <==>
            forall i | attempt <= i < |env| :: Lost(req, env[i])
    ensures SubmitFrom(req, env, attempt).result == Failure(Conflict) ==>
            SubmitFrom(req, env, attempt).after == env[|env| - 1].swap
    decreases |env| - attempt
  {
    hide DecodeEntry, EncodeEntry, Consistent, EntryFor, RingContains, AppendRing, NextScore, SwapScript;
    if attempt < |env| {
      var m := env[attempt];
      assert m in env;
      var owner := req.score.owner;
      AnswersAreNoConflict(m.answer, MemberOf(m.read, owner));
      NextIsOwners(m.read, req.score, req.mode);
      var next := NextScore(MemberOf(m.read, owner), req.score, req.mode);
      AnswersAreNoConflict(m.answer, EncodeEntry(next.score));
      SwapIsCompareAndSwap(m.swap, owner, MemberOf(m.read, owner), EncodeEntry(next.score), req.id,
                           AppendRing(RingField(m.read, owner), req.id));
      ConflictIffEveryAttemptLost(req, env, attempt + 1);
    }
  }

  /** A submit whose write went through replaced the owner's score by the result of applying
      its mode to the very score stored at that moment, not to an older one. It answers with
      that score and with its rank on the board a moment later, 0 when it is gone by then. */
  lemma {:induction false} SubmitIsAtomic(req: Request, env: seq<Moments>, attempt: nat) returns (at: nat)
    requires attempt < |env| && AllConsistent(env) && req.score.owner != 0
    requires exists i :: attempt <= i < |env| && !Lost(req, env[i])
    ensures attempt <= at < |env| && !Lost(req, env[at])
    ensures forall i | attempt <= i < at :: Lost(req, env[i])
    ensures !Replayed(req, env[at]) && Changes(req, env[at].read) ==>
      var out := SubmitFrom(req, env, attempt);
      var next := NextScore(MemberOf(env[at].swap, req.score.owner), req.score, req.mode).score;
      && Consistent(out.after)
      && Scores(out.after) == Scores(env[at].swap)[req.score.owner := next]
      && out.result == Success(Entry(RankLater(env[at].answer, next), next))
    decreases |env| - attempt
  {
    hide DecodeEntry, EncodeEntry, RevRank, RingContains, AppendRing, NextScore, EntryFor, SwapScript, SubmitFrom,
         Scores, BetterOwners;
    var m := env[attempt];
    assert m in env;
    if Lost(req, m) {
      at := SubmitIsAtomic(req, env, attempt + 1);
      LostGoesOn(req, env, attempt);
    } else {
      at := attempt;
      if !Replayed(req, m) && Changes(req, m.read) { AppliedSwap(req, env, attempt); }
    }
  }

  lemma LostGoesOn(req: Request, env: seq<Moments>, attempt: nat)
    requires attempt < |env| && AllConsistent(env) && Lost(req, env[attempt])
    ensures SubmitFrom(req, env, attempt) == SubmitFrom(req, env, attempt + 1)
  {
    var m := env[attempt];
    assert m in env;
    var owner := req.score.owner;
    var next := NextScore(MemberOf(m.read, owner), req.score, req.mode);
    SwapIsCompareAndSwap(m.swap, owner, MemberOf(m.read, owner), EncodeEntry(next.score), req.id,
                         AppendRing(RingField(m.read, owner), req.id));
  }

  /** The rank of a score on a board; 0 when its owner has no such score there. */
  ghost function RankLater(r: Redis, s: Score): nat
    requires Consistent(r)
  {
    var b := Scores(r);
    if s.owner in b && b[s.owner] == s then |BetterOwners(b, s)| + 1 else 0
  }

  lemma EntryForIsRankLater(r: Redis, s: Score)
    requires Consistent(r)
    ensures EntryFor(r, EncodeEntry(s)) == Success(Entry(RankLater(r, s), s))
  {
    hide DecodeEntry, EncodeEntry, Consistent, Scores, BetterOwners, RevRank, Less;
    DecodeUndoesEncode(s);
    EntryNotEmpty(s);
    if EncodeEntry(s) in r.zset {
      var o := OwnerOf(r, EncodeEntry(s));
      assert Scores(r)[o] == s && Keyed(Scores(r));
      RankMeaning(r, o);
    } else {
      NotRankedOutside(r.zset, EncodeEntry(s));
      if s.owner in Scores(r) && Scores(r)[s.owner] == s { MemberIsInZset(r, s.owner); }
    }
  }

  lemma NotRankedOutside(z: set<string>, member: string)
    requires member !in z
    ensures RevRank(z, member) == None
  {}

  lemma MemberIsInZset(r: Redis, owner: int64)
    requires Consistent(r) && owner in r.members
    ensures r.members[owner] in r.zset && EncodeEntry(Scores(r)[owner]) == r.members[owner]
  {
    hide DecodeEntry, EncodeEntry;
    assert EntryOf(r.members[owner], owner);
  }

  /** What an attempt that is not lost, and changes something, does. */
  lemma AttemptSwaps(req: Request, env: seq<Moments>, attempt: nat)
    requires attempt < |env| && AllConsistent(env)
    requires var m := env[attempt]; !Lost(req, m) && !Replayed(req, m) && Changes(req, m.read)
    ensures var m, owner := env[attempt], req.score.owner;
      var next := NextScore(MemberOf(m.swap, owner), req.score, req.mode).score;
      var s := SwapScript(m.swap, owner, MemberOf(m.swap, owner), EncodeEntry(next), req.id,
                          AppendRing(RingField(m.read, owner), req.id));
      s.applied && SubmitFrom(req, env, attempt) == Submitted(s.after, EntryFor(m.answer, EncodeEntry(next)))
  {
    hide DecodeEntry, EncodeEntry, Consistent, EntryFor, RingContains, AppendRing, NextScore, SwapScript;
    var m, owner := env[attempt], req.score.owner;
    assert m in env;
    var next := NextScore(MemberOf(m.read, owner), req.score, req.mode).score;
    SwapIsCompareAndSwap(m.swap, owner, MemberOf(m.read, owner), EncodeEntry(next), req.id,
                         AppendRing(RingField(m.read, owner), req.id));
  }

  lemma AppliedSwap(req: Request, env: seq<Moments>, attempt: nat)
    requires attempt < |env| && AllConsistent(env) && req.score.owner != 0
    requires var m := env[attempt]; !Lost(req, m) && !Replayed(req, m) && Changes(req, m.read)
    ensures
      var out := SubmitFrom(req, env, attempt);
      var next := NextScore(MemberOf(env[attempt].swap, req.score.owner), req.score, req.mode).score;
      && Consistent(out.after)
      && Scores(out.after) == Scores(env[attempt].swap)[req.score.owner := next]
      && out.result == Success(Entry(RankLater(env[attempt].answer, next), next))
  {
    hide DecodeEntry, EncodeEntry, Consistent, EntryFor, RankLater, RingContains, AppendRing, NextScore, SwapScript,
         SubmitFrom, Scores, BetterOwners;
    var m, owner := env[attempt], req.score.owner;
    assert m in env;
    AttemptSwaps(req, env, attempt);
    var next := NextScore(MemberOf(m.swap, owner), req.score, req.mode).score;
    NextIsOwners(m.swap, req.score, req.mode);
    SwapWritesOneScore(m.swap, owner, MemberOf(m.swap, owner), next, req.id,
                       AppendRing(RingField(m.read, owner), req.id));
    EntryForIsRankLater(m.answer, next);
  }

  /** Read as a board, an applied swap replaces its owner's score and no other. */
  lemma SwapWritesOneScore(r: Redis, owner: int64, stored: string, next: Score, id: string, ring: string)
    requires Consistent(r) && owner != 0 && next.owner == owner
    ensures var s := SwapScript(r, owner, stored, EncodeEntry(next), id, ring);
      s.applied ==> Consistent(s.after) && Scores(s.after) == Scores(r)[owner := next]
  {
    hide DecodeEntry, EncodeEntry, Consistent, EntryOf;
    EncodedIsEntry(next);
    DecodeUndoesEncode(next);
    SwapKeepsConsistent(r, owner, stored, EncodeEntry(next), id, ring);
  }

  lemma {:induction false} LostAttemptsGoOn(req: Request, env: seq<Moments>, attempt: nat, at: nat)
    requires attempt <= at < |env| && AllConsistent(env) && forall i | attempt <= i < at :: Lost(req, env[i])
    ensures SubmitFrom(req, env, attempt) == SubmitFrom(req, env, at)
    decreases at - attempt
  {
    hide SubmitFrom, Lost;
    if attempt < at {
      LostGoesOn(req, env, attempt);
      LostAttemptsGoOn(req, env, attempt + 1, at);
    }
  }

  /** The first attempt that did not lose its compare-and-swap. */
  predicate FirstNotLost(req: Request, env: seq<Moments>, at: nat)
  {
    at < |env| && !Lost(req, env[at]) && forall i | 0 <= i < at :: Lost(req, env[i])
  }

  /** What a submit leaves and answers, told by the boards its deciding attempt met. An id that
      the ring names writes nothing at all and is answered with the stored score. A submit that
      changes the score replaces it, and its id enters the ring. One that changes nothing
      records its id only, and only if the member is still the one it read. */
  ghost predicate Did(req: Request, m: Moments, after: Redis, result: Result<Entry>)
    requires Consistent(m.read) && Consistent(m.swap) && Consistent(m.answer)
  {
    var owner := req.score.owner;
    if req.id != "" && RingContains(RingField(m.read, owner), req.id) then
      && after == m.read
      && result == if owner in m.read.members then Answered(m.answer, Scores(m.read)[owner]) else Failure(NotFound)
    else if Changes(req, m.read) then
      var next := NextScore(MemberOf(m.swap, owner), req.score, req.mode).score;
      && Consistent(after) && Scores(after) == Scores(m.swap)[owner := next]
      && after.rings == (if req.id == "" then m.swap.rings
                         else m.swap.rings[owner := AppendRing(RingField(m.read, owner), req.id)])
      && result == Answered(m.answer, next)
    else
      && owner in m.read.members && result == Answered(m.answer, Scores(m.read)[owner])
      && (req.id == "" ==> after == m.read)
      && (req.id != "" ==>
            && after.zset == m.swap.zset && after.members == m.swap.members
            && after.rings == (if MemberOf(m.swap, owner) != MemberOf(m.read, owner) then m.swap.rings
                               else m.swap.rings[owner := AppendRing(RingField(m.read, owner), req.id)]))
  }

  ghost function Answered(answer: Redis, s: Score): Result<Entry>
    requires Consistent(answer)
  {
    Success(Entry(RankLater(answer, s), s))
  }

  /** A replay writes nothing and is answered with the stored score. */
  lemma ReplayWritesNothing(req: Request, env: seq<Moments>, at: nat)
    requires at < |env| && AllConsistent(env)
    requires req.id != "" && RingContains(RingField(env[at].read, req.score.owner), req.id)
    ensures env[at] in env
    ensures Did(req, env[at], SubmitFrom(req, env, at).after, SubmitFrom(req, env, at).result)
  {
    hide DecodeEntry, EncodeEntry, Consistent, EntryFor, RankLater, RingContains, AppendRing, NextScore, SwapScript,
         Scores;
    var m, owner := env[at], req.score.owner;
    assert m in env;
    if owner in m.read.members {
      EntryForIsRankLater(m.answer, Scores(m.read)[owner]);
      MemberIsInZset(m.read, owner);
    } else {
      NothingIsNotFound(m.answer);
    }
  }

  lemma NothingIsNotFound(r: Redis)
    ensures EntryFor(r, "") == Failure(NotFound)
  {}

  /** A submit that changes nothing keeps the score and records its id. */
  lemma UnchangedRecordsOnly(req: Request, env: seq<Moments>, at: nat)
    requires at < |env| && AllConsistent(env) && req.score.owner != 0
    requires !Replayed(req, env[at]) && !Changes(req, env[at].read)
    ensures env[at] in env
    ensures Did(req, env[at], SubmitFrom(req, env, at).after, SubmitFrom(req, env, at).result)
  {
    hide DecodeEntry, EncodeEntry, Consistent, EntryFor, RankLater, RingContains, AppendRing, NextScore, Scores;
    var m, owner := env[at], req.score.owner;
    assert m in env;
    NextIsOwners(m.read, req.score, req.mode);
    NextScoreMeaning(MemberOf(m.read, owner), req.score, req.mode);
    assert owner in m.read.members;
    EntryForIsRankLater(m.answer, Scores(m.read)[owner]);
    MemberIsInZset(m.read, owner);
    MemberNotEmpty(m.read, owner);
    if owner in m.swap.members { MemberIsInZset(m.swap, owner); }
  }

  lemma AppliedSwapRings(req: Request, env: seq<Moments>, at: nat)
    requires at < |env| && AllConsistent(env)
    requires var m := env[at]; !Lost(req, m) && !Replayed(req, m) && Changes(req, m.read)
    ensures var m, owner := env[at], req.score.owner;
      SubmitFrom(req, env, at).after.rings ==
        if req.id == "" then m.swap.rings else m.swap.rings[owner := AppendRing(RingField(m.read, owner), req.id)]
  {
    hide DecodeEntry, EncodeEntry, Consistent, EntryFor, RingContains, AppendRing, NextScore, SubmitFrom;
    AttemptSwaps(req, env, at);
  }

  lemma SubmitDid(req: Request, env: seq<Moments>, at: nat)
    requires AllConsistent(env) && req.score.owner != 0 && FirstNotLost(req, env, at)
    ensures env[at] in env
    ensures Did(req, env[at], SubmitFrom(req, env, 0).after, SubmitFrom(req, env, 0).result)
  {
    hide DecodeEntry, EncodeEntry, Consistent, EntryFor, RankLater, RingContains, AppendRing, NextScore, Scores,
         SubmitFrom, SwapScript;
    LostAttemptsGoOn(req, env, 0, at);
    if Replayed(req, env[at]) {
      ReplayWritesNothing(req, env, at);
    } else if Changes(req, env[at].read) {
      assert env[at] in env;
      AppliedSwap(req, env, at);
      AppliedSwapRings(req, env, at);
    } else {
      UnchangedRecordsOnly(req, env, at);
    }
  }

  lemma ZsetIsRanked(r: Redis)
    requires Consistent(r)
    ensures |r.zset| == |Ranked(Scores(r))|
  {
    DescendingIsRanked(r);
  }

  /** The rows a page reads decode to the window of the ranked board. */
  lemma PageDecodes(r: Redis, offset: nat, limit: nat)
    requires Consistent(r) && limit > 0
    ensures var rows, window := RevRange(r.zset, offset, offset + limit - 1), Window(Ranked(Scores(r)), offset, limit);
      && |rows| == |window|
      && forall i | 0 <= i < |rows| :: DecodeEntry(rows[i]) == Ok(window[i].score) && window[i].rank == offset + i + 1
  {
    hide DecodeEntry, EncodeEntry, Consistent, Scores, Ranked, Descending, Enumerates, SortedBy;
    DescendingIsRanked(r);
    var rows, window := RevRange(r.zset, offset, offset + limit - 1), Window(Ranked(Scores(r)), offset, limit);
    forall i | 0 <= i < |rows|
      ensures DecodeEntry(rows[i]) == Ok(window[i].score)
    {
      assert rows[i] == Descending(r.zset)[offset + i];
    }
  }

  lemma PageIsWindow(r: Redis, offset: nat, limit: nat, entries: seq<Entry>)
    requires Consistent(r) && limit > 0
    requires var rows := RevRange(r.zset, offset, offset + limit - 1);
      && |entries| == |rows|
      && forall i | 0 <= i < |rows| :: DecodeEntry(rows[i]) == Ok(entries[i].score) && entries[i].rank == offset + i + 1
    ensures entries == Window(Ranked(Scores(r)), offset, limit)
  {
    hide DecodeEntry, EncodeEntry, Consistent, Scores, Ranked, RevRange, Window;
    PageDecodes(r, offset, limit);
    var window := Window(Ranked(Scores(r)), offset, limit);
    forall i | 0 <= i < |entries|
      ensures entries[i] == window[i]
    {
      assert entries[i] == Entry(entries[i].rank, entries[i].score);
    }
  }

  lemma WindowHolds(q: seq<Score>, offset: nat, limit: nat, place: nat)
    requires offset <= place < offset + limit && place < |q|
    ensures Entry(place + 1, q[place]) in Window(q, offset, limit)
  {
    assert Window(q, offset, limit)[place - offset] == Entry(place + 1, q[place]);
  }

  lemma OwnersAreNonZero(r: Redis, owner: int64)
    requires Consistent(r) && owner in r.members
    ensures owner != 0
  {}

  // ---------- the store ----------

  class RedisStore {
    var redis: Redis

    constructor ()
      ensures redis == EMPTY
    {
      redis := EMPTY;
    }

    method Swap(owner: int64, expected: string, next: string, id: string, ring: string)
      returns (applied: bool, current: string)
      modifies this
      ensures SwapReply(redis, applied, current) == SwapScript(old(redis), owner, expected, next, id, ring)
    {
      if expected == "" {
        if owner in redis.members { return false, redis.members[owner]; }
      } else {
        if owner !in redis.members || redis.members[owner] != expected {
          return false, MemberOf(redis, owner);
        }
        redis := redis.(zset := redis.zset - {expected});
      }
      redis := redis.(zset := redis.zset + {next}, members := redis.members[owner := next]);
      if id != "" { redis := redis.(rings := redis.rings[owner := ring]); }
      return true, next;
    }

    /** The eight-attempt loop. The board each of its round trips meets is given; the tie of a
        score that leaves it zero is the submit time. */
    method Submit(board: BoardName, score: Score, mode: Option<UpdateMode>, id: string, nowMillis: int64,
                  env: seq<Moments>)
      returns (result: Result<Entry>)
      requires |env| == MAX_SUBMIT_ATTEMPTS
      modifies this
      ensures board.Valid() <==>
        && board.id != "" && board.scope != UnknownScope && board.season >= 0
        && (board.scope == Global ==> board.scopeID == 0) && (board.scope != Global ==> board.scopeID != 0)
      ensures !board.Valid() ==> result == Failure(BoardInvalid) && redis == old(redis)
      ensures board.Valid() && score.owner == 0 ==> result == Failure(OwnerInvalid) && redis == old(redis)
      ensures board.Valid() && score.owner != 0 && (mode == None || |score.brief| > MAX_BRIEF_BYTES) ==>
        result == Failure(ScoreInvalid) && redis == old(redis)
      ensures board.Valid() && score.owner != 0 && mode == Some(Add) && |score.brief| <= MAX_BRIEF_BYTES && id == "" ==>
        result == Failure(RequestInvalid) && redis == old(redis)
      ensures ValidateSubmit(board, score, mode, id).None? ==>
        var tied := if score.tie == 0 then score.(tie := nowMillis) else score;
        Submitted(redis, result) == SubmitFrom(Request(tied, mode.value, id), env, 0)
      ensures board.Valid() && score.owner != 0 && mode.Some? && |score.brief| <= MAX_BRIEF_BYTES
              && (mode == Some(Add) ==> id != "") && AllConsistent(env) ==>
        var req := Request(if score.tie == 0 then score.(tie := nowMillis) else score, mode.value, id);
        && (result == Failure(Conflict) <==> forall i | 0 <= i < |env| :: Lost(req, env[i]))
        && (result == Failure(Conflict) ==> redis == env[|env| - 1].swap)
        && forall at: nat | FirstNotLost(req, env, at) :: env[at] in env && Did(req, env[at], redis, result)
    {
      hide DecodeEntry, EncodeEntry, RevRank, RingContains, AppendRing, NextScore, EntryFor, Did, Lost, Consistent,
           SubmitFrom, Replayed, Changes, MemberOf, RingField;
      var invalid := ValidateSubmit(board, score, mode, id);
      if invalid.Some? { return Failure(invalid.value); }
      var tied := if score.tie == 0 then score.(tie := nowMillis) else score;
      if AllConsistent(env) {
        ConflictIffEveryAttemptLost(Request(tied, mode.value, id), env, 0);
        forall at: nat | FirstNotLost(Request(tied, mode.value, id), env, at)
          ensures env[at] in env
          ensures var out := SubmitFrom(Request(tied, mode.value, id), env, 0);
            Did(Request(tied, mode.value, id), env[at], out.after, out.result)
        {
          SubmitDid(Request(tied, mode.value, id), env, at);
        }
      }
      result := Attempts(Request(tied, mode.value, id), env);
    }

    /** The attempts of a submit that is in order. */
    method Attempts(req: Request, env: seq<Moments>) returns (result: Result<Entry>)
      requires |env| == MAX_SUBMIT_ATTEMPTS
      modifies this
      ensures Submitted(redis, result) == SubmitFrom(req, env, 0)
    {
      hide DecodeEntry, EncodeEntry, RevRank, RingContains, AppendRing, NextScore, EntryFor;
      var owner, id := req.score.owner, req.id;
      var attempt := 0;
      while attempt < MAX_SUBMIT_ATTEMPTS
        invariant 0 <= attempt <= MAX_SUBMIT_ATTEMPTS
        invariant SubmitFrom(req, env, attempt)
                  == SubmitFrom(req, env, 0)
        invariant attempt > 0 ==> redis == env[attempt - 1].swap
      {
        redis := env[attempt].read;
        var stored, ring := MemberOf(redis, owner), RingField(redis, owner);
        if id != "" && RingContains(ring, id) { return EntryFor(env[attempt].answer, stored); }
        var next := NextScore(stored, req.score, req.mode);
        if next.Undecodable? { return Failure(Malformed); }
        if !next.changed {
          if id != "" {
            redis := env[attempt].swap;
            var _, _ := Swap(owner, stored, stored, id, AppendRing(ring, id));
          }
          return EntryFor(env[attempt].answer, stored);
        }
        redis := env[attempt].swap;
        var applied, _ := Swap(owner, stored, EncodeEntry(next.score), id, AppendRing(ring, id));
        if applied { return EntryFor(env[attempt].answer, EncodeEntry(next.score)); }
        attempt := attempt + 1;
      }
      return Failure(Conflict);
    }

    method Remove(owner: int64) returns (error: Option<RankError>)
      modifies this
      ensures owner == 0 ==> error == Some(OwnerInvalid) && redis == old(redis)
      ensures owner != 0 ==> error == None && redis == RemoveScript(old(redis), owner)
      ensures owner != 0 ==> owner !in redis.members && redis.members == old(redis).members - {owner}
      ensures owner in old(redis).members && owner != 0 ==>
        && redis.zset == old(redis).zset - {old(redis).members[owner]} && redis.rings == old(redis).rings - {owner}
      ensures owner !in old(redis).members ==> redis == old(redis)
    {
      if owner == 0 { return Some(OwnerInvalid); }
      if owner in redis.members {
        redis := redis.(zset := redis.zset - {redis.members[owner]});
        redis := redis.(members := redis.members - {owner});
        redis := redis.(rings := redis.rings - {owner});
      }
      return None;
    }

    /** The page is the window of the ranked board; a member that does not decode is an
        error, never a skipped row. */
    method ReadPage(offset: int, limit: int) returns (result: Result<Page>)
      ensures offset < 0 || limit <= 0 || limit > MAX_PAGE_SIZE ==> result == Failure(RangeInvalid)
      ensures 0 <= offset && 0 < limit <= MAX_PAGE_SIZE && Consistent(redis) ==>
        var board := Ranked(Scores(redis));
        result == Success(Page(Window(board, offset, limit), |board|))
      ensures 0 <= offset && 0 < limit <= MAX_PAGE_SIZE ==>
        (result == Failure(Malformed) <==>
          exists m :: m in RevRange(redis.zset, offset, offset + limit - 1) && DecodeEntry(m).Err?)
    {
      hide DecodeEntry, EncodeEntry, Consistent, Scores, Ranked, RevRange, Window;
      if offset < 0 || limit <= 0 || limit > MAX_PAGE_SIZE { return Failure(RangeInvalid); }
      var members := RevRange(redis.zset, offset, offset + limit - 1);
      var total := |redis.zset|;
      var entries: seq<Entry> := [];
      if Consistent(redis) { PageDecodes(redis, offset, limit); }
      var index := 0;
      while index < |members|
        invariant 0 <= index <= |members| && |entries| == index
        invariant forall i | 0 <= i < index :: DecodeEntry(members[i]) == Ok(entries[i].score)
        invariant forall i | 0 <= i < index :: entries[i].rank == offset + i + 1
      {
        var d := DecodeEntry(members[index]);
        if d.Err? {
          assert members[index] in members;
          return Failure(Malformed);
        }
        entries := entries + [Entry(offset + index + 1, d.score)];
        index := index + 1;
      }
      if Consistent(redis) {
        ZsetIsRanked(redis);
        PageIsWindow(redis, offset, limit, entries);
      }
      return Success(Page(entries, total));
    }

    /** An owner's rank is one more than the number of owners strictly better. */
    method Rank(owner: int64) returns (result: Result<Option<Entry>>)
      ensures owner == 0 ==> result == Failure(OwnerInvalid)
      ensures owner != 0 && Consistent(redis) && owner !in redis.members ==> result == Success(None)
      ensures owner != 0 && Consistent(redis) && owner in redis.members ==>
        var board := Scores(redis);
        result == Success(Some(Entry(|BetterOwners(board, board[owner])| + 1, board[owner])))
    {
      hide DecodeEntry, EncodeEntry, RevRank, Consistent, BetterOwners;
      if owner == 0 { return Failure(OwnerInvalid); }
      var member := MemberOf(redis, owner);
      if member == "" {
        if Consistent(redis) && owner in redis.members { MemberNotEmpty(redis, owner); }
        return Success(None);
      }
      var entry := EntryFor(redis, member);
      if Consistent(redis) && owner in redis.members {
        RankMeaning(redis, owner);
        MembersAreScores(redis, owner, owner);
      }
      return match entry case Success(e) => Success(Some(e)) case Failure(f) => Failure(f);
    }

    /** The window centred on an owner always holds the owner's row, for a radius of 1 to 99.
        A radius of 100 passes the radius check but asks for 201 rows, which the page refuses. */
    method Around(owner: int64, radius: int) returns (result: Result<Page>)
      ensures radius <= 0 || radius > MAX_PAGE_SIZE / 2 ==> result == Failure(RangeInvalid)
      ensures 0 < radius <= MAX_PAGE_SIZE / 2 && owner == 0 ==> result == Failure(OwnerInvalid)
      ensures Consistent(redis) && 0 < radius <= MAX_PAGE_SIZE / 2 && owner != 0 && owner !in redis.members ==>
        result == Failure(NotFound)
      ensures Consistent(redis) && owner in redis.members ==> (result.Success? <==> 0 < radius < MAX_PAGE_SIZE / 2)
      ensures Consistent(redis) && owner in redis.members && result.Success? ==>
        var board := Scores(redis);
        var rank := |BetterOwners(board, board[owner])| + 1;
        var first := if rank - 1 < radius then 0 else rank - 1 - radius;
        && Entry(rank, board[owner]) in result.value.entries
        && result.value == Page(Window(Ranked(board), first, radius * 2 + 1), |Ranked(board)|)
    {
      hide DecodeEntry, EncodeEntry, RevRank, Consistent, BetterOwners, RevRange, Window, Ranked, Scores;
      if radius <= 0 || radius > MAX_PAGE_SIZE / 2 { return Failure(RangeInvalid); }
      if Consistent(redis) && owner in redis.members { OwnersAreNonZero(redis, owner); }
      var found := Rank(owner);
      if found.Failure? { return Failure(found.error); }
      if found.value.None? { return Failure(NotFound); }
      var offset := found.value.value.rank - 1 - radius;
      if offset < 0 { offset := 0; }
      result := ReadPage(offset, radius * 2 + 1);
      if Consistent(redis) && result.Success? {
        RankMeaning(redis, owner);
        WindowHolds(Ranked(Scores(redis)), offset, radius * 2 + 1, found.value.value.rank - 1);
      }
    }

    method Reset()
      modifies this
      ensures redis == EMPTY
    {
      redis := EMPTY;
    }
  }
}
