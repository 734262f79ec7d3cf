/** service/rank/redis_store.go, the structures and the reads: a sorted set of members, an
    owner hash naming each owner's member, and Page, Rank and Around over them. */
module RankBoard {
  import opened Text
  import opened Ordering
  import opened RankMember

  /** One board in Redis. The hash's two kinds of field, the owner's member and the owner's
      ring of applied request ids, are kept as two maps. Every score in the sorted set is 0. */
  datatype Redis = Redis(zset: set<string>, members: map<int64, string>, rings: map<int64, string>)

  const EMPTY: Redis := Redis({}, map[], map[])
  const MAX_PAGE_SIZE := 200

  datatype RankError =
    | BoardInvalid | RangeInvalid | OwnerInvalid | ScoreInvalid | RequestInvalid | NotFound | Conflict | Malformed
  datatype Result<+T> = Success(value: T) | Failure(error: RankError)

  datatype Entry = Entry(rank: nat, score: Score)
  datatype Page = Page(entries: seq<Entry>, total: nat)

  // ---------- the sorted set ----------

  /** Descending byte order: where ZREVRANGE puts a before b. */
  predicate Above(a: string, b: string) { Less(b, a) }

  lemma AboveIsStrictTotal(z: set<string>)
    ensures StrictTotal(z, Above)
  {
    forall a, b | a in z && b in z
      ensures !Above(a, a)
      ensures a != b ==> Above(a, b) != Above(b, a)
    {
      LessIsStrictTotal(a, b);
    }
    forall a, b, c | a in z && b in z && c in z && Above(a, b) && Above(b, c)
      ensures Above(a, c)
    {
      LessTransitive(c, b, a);
    }
  }

  /** The whole set as ZREVRANGE lists it. */
  function Descending(z: set<string>): (q: seq<string>)
    ensures Enumerates(q, z) && SortedBy(q, Above)
  {
    AboveIsStrictTotal(z);
    Sort(z, Above)
  }

  /** ZREVRANGE key start stop, for start <= stop + 1. */
  function RevRange(z: set<string>, start: nat, stop: int): seq<string>
    requires start <= stop + 1
  {
    var q := Descending(z);
    if start >= |q| then [] else if stop + 1 >= |q| then q[start..] else q[start..stop + 1]
  }

  /** ZREVRANK: how many members stand above this one; None when it is not in the set. */
  function RevRank(z: set<string>, member: string): Option<nat>
  {
    if member in z then Some(|set x | x in z && Above(x, member)|) else None
  }

  // ---------- consistency ----------

  /** A stored member is an entry of this owner: it decodes to the owner and is what the
      encoder writes for the score it decodes to. */
  predicate EntryOf(member: string, owner: int64)
  {
    var d := DecodeEntry(member);
    d.Ok? && d.score.owner == owner && EncodeEntry(d.score) == member
  }

  /** The two structures agree. */
  ghost predicate Consistent(r: Redis)
  {
    && (forall o | o in r.members :: o != 0 && EntryOf(r.members[o], o))
    && r.zset == set o | o in r.members :: r.members[o]
  }

  // ---------- what a board means ----------

  type Board = map<int64, Score>

  /** The simple map the two structures implement. */
  ghost function Scores(r: Redis): (b: Board)
    requires Consistent(r)
    ensures b.Keys == r.members.Keys && Keyed(b)
  {
    map o | o in r.members :: DecodeEntry(r.members[o]).score
  }

  ghost predicate Keyed(b: Board) { forall o | o in b :: b[o].owner == o }

  ghost function ScoreSet(b: Board): set<Score> { set o | o in b :: b[o] }

  lemma BetterIsStrictTotal(b: Board)
    requires Keyed(b)
    ensures StrictTotal(ScoreSet(b), Better)
  {}

  /** The board as players see it: best first. */
  ghost function Ranked(b: Board): (q: seq<Score>)
    requires Keyed(b)
    ensures Enumerates(q, ScoreSet(b)) && SortedBy(q, Better)
  {
    BetterIsStrictTotal(b);
    Sort(ScoreSet(b), Better)
  }

  ghost function BetterOwners(b: Board, s: Score): set<int64> { set o | o in b && Better(b[o], s) }

  /** Rows offset .. offset + limit of a ranked list, each with its 1-based rank. */
  function Window(q: seq<Score>, offset: nat, limit: nat): seq<Entry>
  {
    if offset >= |q| then []
    else
      var n := if offset + limit <= |q| then limit else |q| - offset;
      seq(n, i requires 0 <= i < n => Entry(offset + i + 1, q[offset + i]))
  }

  /** Consecutive pages tile the board: no row twice, none skipped. */
  lemma WindowsTile(q: seq<Score>, offset: nat, limit: nat, next: nat)
    ensures Window(q, offset, limit) + Window(q, offset + limit, next) == Window(q, offset, limit + next)
    ensures Window(q, 0, |q|) == seq(|q|, i requires 0 <= i < |q| => Entry(i + 1, q[i]))
  {}

  // ---------- the encoded structures refine the map ----------

  lemma MembersAreScores(r: Redis, o: int64, p: int64)
    requires Consistent(r) && o in r.members && p in r.members
    ensures DecodeEntry(r.members[o]) == Ok(Scores(r)[o])
    ensures EncodeEntry(Scores(r)[o]) == r.members[o]
    ensures r.members[o] == r.members[p] <==> o == p
    ensures o != p ==> (Above(r.members[o], r.members[p]) <==> Better(Scores(r)[o], Scores(r)[p]))
  {
    assert EntryOf(r.members[o], o) && EntryOf(r.members[p], p);
    if o != p { EntryOrder(Scores(r)[o], Scores(r)[p]); }
  }

  lemma OwnerOf(r: Redis, m: string) returns (o: int64)
    requires Consistent(r) && m in r.zset
    ensures o in r.members && r.members[o] == m
    ensures DecodeEntry(m) == Ok(Scores(r)[o]) && EncodeEntry(Scores(r)[o]) == m
  {
    o :| o in r.members && r.members[o] == m;
    MembersAreScores(r, o, o);
  }

  /** The scores a list of members decodes to. */
  function DecodeAll(q: seq<string>): (d: seq<Score>)
    requires forall i | 0 <= i < |q| :: DecodeEntry(q[i]).Ok?
    ensures |d| == |q| && forall i | 0 <= i < |q| :: DecodeEntry(q[i]) == Ok(d[i])
  {
    seq(|q|, i requires 0 <= i < |q| => DecodeEntry(q[i]).score)
  }

  lemma DescendingDecodes(r: Redis)
    requires Consistent(r)
    ensures forall i | 0 <= i < |Descending(r.zset)| :: DecodeEntry(Descending(r.zset)[i]).Ok?
  {
    var q := Descending(r.zset);
    forall i | 0 <= i < |q|
      ensures DecodeEntry(q[i]).Ok?
    {
      assert q[i] in r.zset;
      var o := OwnerOf(r, q[i]);
    }
  }

  /** Reading the sorted set from the top and decoding is reading the ranked board. */
  lemma DescendingIsRanked(r: Redis)
    requires Consistent(r)
    ensures var q, board := Descending(r.zset), Ranked(Scores(r));
      |q| == |board| == |r.members| && forall i | 0 <= i < |q| :: DecodeEntry(q[i]) == Ok(board[i])
  {
    var q := Descending(r.zset);
    var b := Scores(r);
    DescendingDecodes(r);
    var scores := DecodeAll(q);
    ZsetSize(r);
    BetterIsStrictTotal(b);
    DescendingIsSorted(r, q, scores);
    DescendingCovers(r, q, scores);
    SortedUnique(scores, Ranked(b), ScoreSet(b), Better);
  }

  lemma DescendingCovers(r: Redis, q: seq<string>, scores: seq<Score>)
    requires Consistent(r) && Enumerates(q, r.zset) && |q| == |scores|
    requires forall i | 0 <= i < |q| :: DecodeEntry(q[i]) == Ok(scores[i])
    ensures forall s :: s in scores <==> s in ScoreSet(Scores(r))
  {
    var b := Scores(r);
    forall s | s in scores
      ensures s in ScoreSet(b)
    {
      var i :| 0 <= i < |scores| && scores[i] == s;
      assert q[i] in q;
      var o := OwnerOf(r, q[i]);
      assert b[o] in ScoreSet(b);
    }
    forall s | s in ScoreSet(b)
      ensures s in scores
    {
      var o :| o in b && b[o] == s;
      MembersAreScores(r, o, o);
      assert r.members[o] in r.zset && r.members[o] in q;
      var i :| 0 <= i < |q| && q[i] == r.members[o];
      assert scores[i] == s;
    }
  }

  lemma DescendingIsSorted(r: Redis, q: seq<string>, scores: seq<Score>)
    requires Consistent(r) && Enumerates(q, r.zset) && SortedBy(q, Above) && |q| == |scores|
    requires forall i | 0 <= i < |q| :: DecodeEntry(q[i]) == Ok(scores[i])
    ensures SortedBy(scores, Better)
  {
    forall i, j | 0 <= i < j < |scores|
      ensures Better(scores[i], scores[j])
    {
      assert q[i] in q && q[j] in q;
      var o := OwnerOf(r, q[i]);
      var p := OwnerOf(r, q[j]);
      assert Above(q[i], q[j]);
      LessIsStrictTotal(q[i], q[j]);
      MembersAreScores(r, o, p);
    }
  }

  /** One member per owner, so the three sizes agree. */
  lemma ZsetSize(r: Redis)
    requires Consistent(r)
    ensures |r.zset| == |ScoreSet(Scores(r))| == |r.members|
  {
    ZsetIsImage(r);
    MembersInOrder(r);
    CountThroughMembers(r.members, r.zset, r.members.Keys);
    ScoreSetSize(Scores(r));
  }

  lemma ZsetIsImage(r: Redis)
    requires Consistent(r)
    ensures r.zset == set o | o in r.members.Keys :: r.members[o]
  {}

  lemma ScoreSetSize(b: Board)
    requires Keyed(b)
    ensures |ScoreSet(b)| == |b|
  {
    ImageSize(b.Keys, o requires o in b => b[o], ScoreSet(b));
  }

  lemma {:induction false} ImageSize<A, B>(s: set<A>, f: A --> B, image: set<B>)
    requires forall a | a in s :: f.requires(a)
    requires forall a, c | a in s && c in s && f(a) == f(c) :: a == c
    requires image == set a | a in s :: f(a)
    ensures |image| == |s|
    decreases |s|
  {
    if s != {} {
      var a :| a in s;
      var rest := s - {a};
      var restImage := image - {f(a)};
      assert restImage == set c | c in rest :: f(c);
      ImageSize(rest, f, restImage);
    } else {
      assert image == {};
    }
  }

  ghost predicate Injective(members: map<int64, string>)
  {
    forall o, p | o in members && p in members && members[o] == members[p] :: o == p
  }

  lemma CountThroughMembers(members: map<int64, string>, above: set<string>, owners: set<int64>)
    requires Injective(members) && owners <= members.Keys
    requires above == set o | o in owners :: members[o]
    ensures |above| == |owners|
  {
    ImageSize(owners, o requires o in members => members[o], above);
  }

  ghost predicate SameOrder(members: map<int64, string>, b: Board)
  {
    && members.Keys == b.Keys
    && forall o, p | o in members && p in members ::
      Above(members[o], members[p]) <==> Better(b[o], b[p])
  }

  lemma MembersInOrder(r: Redis)
    requires Consistent(r)
    ensures Injective(r.members) && SameOrder(r.members, Scores(r))
  {
    forall o, p | o in r.members && p in r.members
      ensures Above(r.members[o], r.members[p]) <==> Better(Scores(r)[o], Scores(r)[p])
      ensures r.members[o] == r.members[p] ==> o == p
    {
      MembersAreScores(r, o, p);
      LessIsStrictTotal(r.members[o], r.members[p]);
    }
  }

  lemma CountAbove(members: map<int64, string>, b: Board, owner: int64, above: set<string>)
    requires Injective(members) && SameOrder(members, b) && owner in members
    requires forall x :: x in above <==> Above(x, members[owner]) && exists o :: o in members && members[o] == x
    ensures |above| == |BetterOwners(b, b[owner])|
  {
    var owners := BetterOwners(b, b[owner]);
    var image := set o | o in owners :: members[o];
    forall x | x in above
      ensures x in image
    {
      var o :| o in members && members[o] == x;
      assert o in owners;
    }
    assert above == image;
    CountThroughMembers(members, above, owners);
  }

  /** The members above an owner's are those of the owners strictly better. */
  lemma MembersAbove(r: Redis, owner: int64)
    requires Consistent(r) && owner in r.members
    ensures RevRank(r.zset, r.members[owner]) == Some(|BetterOwners(Scores(r), Scores(r)[owner])|)
  {
    var m := r.members[owner];
    assert m in r.zset;
    MembersInOrder(r);
    CountAbove(r.members, Scores(r), owner, set x | x in r.zset && Above(x, m));
  }

  /** ZREVRANK names the place the member has in the listing. */
  lemma RankIsPosition(z: set<string>, m: string)
    requires m in z
    ensures RevRank(z, m).Some?
    ensures var i := RevRank(z, m).value; i < |Descending(z)| && Descending(z)[i] == m
  {
    var q := Descending(z);
    assert m in q;
    var i :| 0 <= i < |q| && q[i] == m;
    AboveIsStrictTotal(z);
    Position(q, z, Above, i);
    var above := set x | x in z && Above(x, m);
    assert above == set x | x in q[..i];
  }

  /** An owner's rank is one more than the number of owners strictly better, and the row of
      the ranked board at that rank is the owner's. */
  lemma RankMeaning(r: Redis, owner: int64)
    requires Consistent(r) && owner in r.members
    ensures var b := Scores(r);
      var i := |BetterOwners(b, b[owner])|;
      && RevRank(r.zset, r.members[owner]) == Some(i)
      && i < |Ranked(b)| && Ranked(b)[i] == b[owner]
  {
    MembersAbove(r, owner);
    RankIsPosition(r.zset, r.members[owner]);
    DescendingIsRanked(r);
    MembersAreScores(r, owner, owner);
  }
}
