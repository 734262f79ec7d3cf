/** An Add submit of the store is a read and a swap for each of its attempts, so what is proved
    of runs of reads and swaps is said of submits. */
module RankSubmits {
  import opened RankMember
  import opened RankBoard
  import opened RankStore
  import opened RankRuns

  /** What others do before one attempt's read and between it and the swap, and the board on
      which the rank is read in the end. */
  datatype Gap = Gap(before: seq<Event>, between: seq<Event>, answer: Redis)

  predicate ByOthers(f: Feed, events: seq<Event>, c: Client)
  {
    forall e | e in events :: AddFed(f, e) && (e.Read? || e.Swap? ==> e.client != c)
  }

  predicate GapsByOthers(f: Feed, gaps: seq<Gap>, c: Client)
  {
    forall g | g in gaps :: ByOthers(f, g.before, c) && ByOthers(f, g.between, c)
  }

  function ReadOf(req: Request, c: Client): Event { Read(c, req.id, req.score) }

  /** The boards that the attempts of a submit meet in this traffic. */
  function MomentsOf(t: Traffic, req: Request, c: Client, gaps: seq<Gap>): (env: seq<Moments>)
    ensures |env| == |gaps|
    decreases |gaps|
  {
    if gaps == [] then []
    else
      var atRead := AddRun(t, gaps[0].before);
      var atSwap := AddRun(AddStep(atRead, ReadOf(req, c)), gaps[0].between);
      [Moments(atRead.redis, atSwap.redis, gaps[0].answer)] + MomentsOf(AddStep(atSwap, Swap(c)), req, c, gaps[1..])
  }

  /** The traffic with the submit in it: attempts until one is a replay or meets the member it
      read. */
  function EventsOf(t: Traffic, req: Request, c: Client, gaps: seq<Gap>): seq<Event>
    decreases |gaps|
  {
    if gaps == [] then []
    else
      var atRead := AddRun(t, gaps[0].before);
      var owner := req.score.owner;
      if RingContains(RingField(atRead.redis, owner), req.id) then gaps[0].before + [ReadOf(req, c)]
      else
        var atSwap := AddRun(AddStep(atRead, ReadOf(req, c)), gaps[0].between);
        var round := gaps[0].before + ([ReadOf(req, c)] + (gaps[0].between + [Swap(c)]));
        if MemberOf(atSwap.redis, owner) == MemberOf(atRead.redis, owner) then round
        else round + EventsOf(AddStep(atSwap, Swap(c)), req, c, gaps[1..])
  }

  lemma {:induction false} RunInParts(t: Traffic, a: seq<Event>, b: seq<Event>)
    ensures AddRun(t, a + b) == AddRun(AddRun(t, a), b)
    decreases |a|
  {
    hide AddStep;
    if a == [] {
      assert a + b == b;
    } else {
      assert (a + b)[1..] == a[1..] + b;
      RunInParts(AddStep(t, a[0]), a[1..], b);
    }
  }

  lemma RunOf(t: Traffic, e: Event)
    ensures AddRun(t, [e]) == AddStep(t, e)
  {
    hide AddStep;
    assert [e][1..] == [];
  }

  lemma RunOfRound(t: Traffic, before: seq<Event>, read: Event, between: seq<Event>, swap: Event)
    ensures AddRun(t, before + ([read] + (between + [swap])))
            == AddStep(AddRun(AddStep(AddRun(t, before), read), between), swap)
  {
    hide AddStep, AddRun;
    RunInParts(t, before, [read] + (between + [swap]));
    RunInParts(AddRun(t, before), [read], between + [swap]);
    RunOf(AddRun(t, before), read);
    RunInParts(AddStep(AddRun(t, before), read), between, [swap]);
    RunOf(AddRun(AddStep(AddRun(t, before), read), between), swap);
  }

  lemma {:induction false} OthersLeaveMyRead(f: Feed, t: Traffic, events: seq<Event>, c: Client)
    requires SumInv(f, t) && ByOthers(f, events, c)
    ensures SumInv(f, AddRun(t, events))
    ensures c in t.pending ==> c in AddRun(t, events).pending && AddRun(t, events).pending[c] == t.pending[c]
    decreases |events|
  {
    hide SumInv, AddFed, AddStep;
    if events != [] {
      assert events[0] in events;
      StepKeepsSum(f, t, events[0]);
      StepLeavesMyRead(t, events[0], c);
      OthersLeaveMyRead(f, AddStep(t, events[0]), events[1..], c);
    }
  }

  lemma StepLeavesMyRead(t: Traffic, e: Event, c: Client)
    requires e.Read? || e.Swap? ==> e.client != c
    ensures c in t.pending ==> c in AddStep(t, e).pending && AddStep(t, e).pending[c] == t.pending[c]
  {
    hide NextScore, SwapOf, RingContains, Act;
  }

  /** One attempt of an Add submit is a Read, unless its id is in the ring, which ends the
      submit with nothing written, and a Swap. */
  lemma AttemptIsReadThenSwap(f: Feed, t: Traffic, between: seq<Event>, req: Request, c: Client,
                              env: seq<Moments>, k: nat)
    requires SumInv(f, t) && req.mode == Add && AddFed(f, ReadOf(req, c)) && ByOthers(f, between, c)
    requires k < |env| && env[k].read == t.redis
    requires env[k].swap == AddRun(AddStep(t, ReadOf(req, c)), between).redis
    ensures var owner, read := req.score.owner, AddStep(t, ReadOf(req, c));
      var atSwap := AddRun(read, between);
      var swapped := AddStep(atSwap, Swap(c));
      && SumInv(f, read) && SumInv(f, atSwap) && SumInv(f, swapped)
      && if RingContains(RingField(t.redis, owner), req.id) then
           read == t && SubmitFrom(req, env, k).after == t.redis
         else if MemberOf(atSwap.redis, owner) == MemberOf(t.redis, owner) then
           swapped.log == atSwap.log + [req.id] && SubmitFrom(req, env, k).after == swapped.redis
         else
           swapped.log == atSwap.log && swapped.redis == atSwap.redis
           && SubmitFrom(req, env, k) == SubmitFrom(req, env, k + 1)
  {
    hide DecodeEntry, EncodeEntry, Consistent, StandsFor, RingContains, AppendRing, NextScore, EntryFor, AddRun,
         Wrap, Sum;
    var read := AddStep(t, ReadOf(req, c));
    StepKeepsSum(f, t, ReadOf(req, c));
    OthersLeaveMyRead(f, read, between, c);
    var atSwap := AddRun(read, between);
    StepKeepsSum(f, atSwap, Swap(c));
    if !RingContains(RingField(t.redis, req.score.owner), req.id) {
      var p := read.pending[c];
      AddAlwaysChanges(f, t, req.score);
      SwapOutcome(f, atSwap, c);
      SwapIsCompareAndSwap(atSwap.redis, f.owner, p.stored, EncodeEntry(NextScore(p.stored, p.score, Add).score), p.id,
                           AppendRing(p.ring, p.id));
    }
  }

  lemma AddAlwaysChanges(f: Feed, t: Traffic, score: Score)
    requires SumInv(f, t) && score.owner == f.owner
    ensures var n := NextScore(MemberOf(t.redis, f.owner), score, Add);
      n.Next? && n.changed
  {
    hide DecodeEntry, EncodeEntry, Consistent, StandsFor, NextScore;
    NextIsOwners(t.redis, score, Add);
    NextScoreMeaning(MemberOf(t.redis, f.owner), score, Add);
  }

  /** A whole Add submit, with all its attempts and whatever others do in between, leaves the
      board that the run of its reads and swaps among theirs leaves. */
  lemma {:induction false} SubmitIsARun(f: Feed, t: Traffic, req: Request, c: Client, gaps: seq<Gap>,
                                        env: seq<Moments>, k: nat)
    requires SumInv(f, t) && req.mode == Add && AddFed(f, ReadOf(req, c)) && GapsByOthers(f, gaps, c)
    requires |env| == k + |gaps| > 0 && env[k..] == MomentsOf(t, req, c, gaps)
    requires k > 0 ==> t.redis == env[k - 1].swap
    ensures var final := AddRun(t, EventsOf(t, req, c, gaps));
      SumInv(f, final) && (gaps != [] || k > 0 ==> SubmitFrom(req, env, k).after == final.redis)
    decreases |gaps|
  {
    hide SumInv, AddFed, AddStep, AddRun, RingContains, MemberOf, SubmitFrom;
    if gaps == [] {
      RunOfNothing(t);
      SubmitExhausted(req, env);
    } else {
      var g := gaps[0];
      assert g in gaps;
      var atRead := AddRun(t, g.before);
      OthersLeaveMyRead(f, t, g.before, c);
      assert env[k] == env[k..][0];
      AttemptIsReadThenSwap(f, atRead, g.between, req, c, env, k);
      RunInParts(t, g.before, [ReadOf(req, c)]);
      RunOf(atRead, ReadOf(req, c));
      RunOfRound(t, g.before, ReadOf(req, c), g.between, Swap(c));
      var next := AddStep(AddRun(AddStep(atRead, ReadOf(req, c)), g.between), Swap(c));
      if !RingContains(RingField(atRead.redis, req.score.owner), req.id) && env[k].swap == next.redis {
        assert env[k + 1..] == env[k..][1..] == MomentsOf(next, req, c, gaps[1..]);
        SubmitIsARun(f, next, req, c, gaps[1..], env, k + 1);
      }
      var round := g.before + ([ReadOf(req, c)] + (g.between + [Swap(c)]));
      RunInParts(t, round, EventsOf(next, req, c, gaps[1..]));
    }
  }

  lemma RunOfNothing(t: Traffic)
    ensures AddRun(t, []) == t
  {}

  lemma SubmitExhausted(req: Request, env: seq<Moments>)
    requires |env| > 0
    ensures SubmitFrom(req, env, |env|).after == env[|env| - 1].swap
  {}

  /** So an Add submit counts as the run theorems say: on a board that stands for the sum of
      its log it leaves a board that stands for the sum of the longer log. */
  lemma SubmitsAreCounted(f: Feed, t: Traffic, req: Request, c: Client, gaps: seq<Gap>)
    requires SumInv(f, t) && req.mode == Add && AddFed(f, ReadOf(req, c)) && GapsByOthers(f, gaps, c) && gaps != []
    ensures var out := SubmitFrom(req, MomentsOf(t, req, c, gaps), 0).after;
      var final := AddRun(t, EventsOf(t, req, c, gaps));
      && out == final.redis && Consistent(out)
      && (final.log != [] ==> f.owner in out.members && Scores(out)[f.owner].value == Wrap(Sum(final.log, f.delta)))
  {
    hide AddRun, SubmitFrom, StandsFor, EventsOf, MomentsOf, PendingFed, Consistent, Wrap, Sum;
    var env := MomentsOf(t, req, c, gaps);
    assert env[0..] == env;
    SubmitIsARun(f, t, req, c, gaps, env, 0);
    SumInvMeaning(f, AddRun(t, EventsOf(t, req, c, gaps)));
  }

  /** The same of a Max submit: a read that finds a score at least as good ends it, with its id
      left to record, and a better score is swapped in. */
  lemma MaxAttemptIsReadThenSwap(owner: int64, t: MaxTraffic, between: seq<Event>, req: Request, c: Client,
                                 env: seq<Moments>, k: nat)
    requires MaxInv(owner, t) && owner != 0 && req.mode == Max && req.score.owner == owner
    requires ByOthersMax(owner, between, c)
    requires k < |env| && env[k].read == t.redis
    requires env[k].swap == MaxRun(owner, MaxStep(owner, t, ReadOf(req, c)), between).redis
    ensures var read := MaxStep(owner, t, ReadOf(req, c));
      var atSwap := MaxRun(owner, read, between);
      var swapped := MaxStep(owner, atSwap, Swap(c));
      var out := SubmitFrom(req, env, k);
      && MaxInv(owner, swapped)
      && if req.id != "" && RingContains(RingField(t.redis, owner), req.id) then read == t && out.after == t.redis
         else if !Changes(req, t.redis) then
           read.log == t.log + [req.score] && out.after == if req.id == "" then t.redis else swapped.redis
         else if MemberOf(atSwap.redis, owner) == MemberOf(t.redis, owner) then
           swapped.log == atSwap.log + [req.score] && out.after == swapped.redis
         else
           swapped.log == atSwap.log && swapped.redis == atSwap.redis && out == SubmitFrom(req, env, k + 1)
  {
    hide DecodeEntry, EncodeEntry, Consistent, RingContains, AppendRing, NextScore, EntryFor, MaxRun, EntryOf, BestOf;
    var read := MaxStep(owner, t, ReadOf(req, c));
    MaxStepKeepsInv(owner, t, ReadOf(req, c));
    OthersLeaveMyMax(owner, read, between, c);
    var atSwap := MaxRun(owner, read, between);
    MaxStepKeepsInv(owner, atSwap, Swap(c));
    MaxKeepsBest(owner, MemberOf(t.redis, owner), req.score, t.log);
    if c in atSwap.pending && Changes(req, t.redis) {
      var stored := MemberOf(t.redis, owner);
      SwapIsCompareAndSwap(atSwap.redis, owner, stored, EncodeEntry(NextScore(stored, req.score, Max).score), req.id,
                           AppendRing(RingField(t.redis, owner), req.id));
    }
  }

  predicate ByOthersMax(owner: int64, events: seq<Event>, c: Client)
  {
    forall e | e in events :: MaxLegal(owner, e) && (e.Read? || e.Swap? ==> e.client != c)
  }

  lemma {:induction false} OthersLeaveMyMax(owner: int64, t: MaxTraffic, events: seq<Event>, c: Client)
    requires owner != 0 && MaxInv(owner, t) && ByOthersMax(owner, events, c)
    ensures MaxInv(owner, MaxRun(owner, t, events))
    ensures c in t.pending ==>
      c in MaxRun(owner, t, events).pending && MaxRun(owner, t, events).pending[c] == t.pending[c]
    decreases |events|
  {
    hide MaxInv, MaxLegal, MaxStep;
    if events != [] {
      assert events[0] in events;
      MaxStepKeepsInv(owner, t, events[0]);
      MaxStepLeavesMyRead(owner, t, events[0], c);
      OthersLeaveMyMax(owner, MaxStep(owner, t, events[0]), events[1..], c);
    }
  }

  lemma MaxStepLeavesMyRead(owner: int64, t: MaxTraffic, e: Event, c: Client)
    requires e.Read? || e.Swap? ==> e.client != c
    ensures c in t.pending ==> c in MaxStep(owner, t, e).pending && MaxStep(owner, t, e).pending[c] == t.pending[c]
  {
    hide NextScore, SwapScript, RingContains, Act;
  }
}
