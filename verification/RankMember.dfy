/** service/rank/member.go: the sorted-set member that carries value, tiebreak, owner and brief,
    and whose byte order under a reverse scan is the ranking order. */
module RankMember {
  import opened Text

  const TWO63: int := 0x8000_0000_0000_0000
  const TWO64: int := 0x1_0000_0000_0000_0000

  type int64 = x: int | -0x8000_0000_0000_0000 <= x < 0x8000_0000_0000_0000
  type uint64 = x: int | 0 <= x < 0x1_0000_0000_0000_0000
  type byte = x: int | 0 <= x < 256

  /** An owner's score. An absent brief and an empty one are the same thing to the store. */
  datatype Score = Score(owner: int64, value: int64, tie: int64, brief: seq<byte>)

  datatype MemberError = FieldCount | BadValue | BadTie | BadOwner | BadBrief
  datatype Decoded = Ok(score: Score) | Err(error: MemberError)

  // ---------- the ranking order ----------

  /** What the board promises: larger value, then smaller tie, then smaller owner id. */
  predicate Better(a: Score, b: Score)
  {
    a.value > b.value
    || (a.value == b.value && a.tie < b.tie)
    || (a.value == b.value && a.tie == b.tie && a.owner < b.owner)
  }

  // ---------- 64-bit words ----------

  /** Go's uint64(v): two's complement. */
  function ToWord(v: int64): uint64 { if v < 0 then v + TWO64 else v }

  /** Go's int64(u). */
  function FromWord(u: uint64): int64 { if u < TWO63 then u else u - TWO64 }

  /** u ^ (1 << 63). */
  function FlipTop(u: uint64): uint64 { if u < TWO63 then u + TWO63 else u - TWO63 }

  /** ^u. */
  function Complement(u: uint64): uint64 { TWO64 - 1 - u }

  function SortableUint(v: int64): uint64 { FlipTop(ToWord(v)) }

  /** The mapping keeps the signed order, across zero, and both decoders undo their encoder. */
  lemma SortableUintOrder(v: int64, w: int64)
    ensures SortableUint(v) < SortableUint(w) <==> v < w
    ensures FromWord(FlipTop(SortableUint(v))) == v
    ensures FromWord(FlipTop(Complement(Complement(SortableUint(v))))) == v
  {
    assert SortableUint(v) == v + TWO63 && SortableUint(w) == w + TWO63;
  }

  function Hex(u: uint64): string { Digits(u, 16, 16) }

  /** Sixteen hex digits hold a word, and nineteen decimal digits hold its half. */
  lemma WordPowers()
    ensures Pow(16, 16) == TWO64
    ensures Pow(10, 19) == 10_000_000_000_000_000_000
    ensures Pow(10, 20) == 100_000_000_000_000_000_000
  {
    assert Pow(16, 4) == 65536;
    assert Pow(16, 8) == 65536 * 65536;
    assert Pow(16, 12) == 65536 * 65536 * 65536;
    assert Pow(10, 4) == 10000;
    assert Pow(10, 8) == 10000 * 10000;
    assert Pow(10, 12) == 10000 * 10000 * 10000;
    assert Pow(10, 16) == 10000 * 10000 * 10000 * 10000;
  }

  lemma HexFits(u: uint64)
    ensures u < Pow(16, 16)
    ensures |Hex(u)| == 16 && ':' !in Hex(u)
  {
    WordPowers();
    DigitsShape(u, 16, 16);
  }

  /** fmt's %020d: the sign counts towards the width. */
  function Decimal20(v: int64): string
  {
    if v < 0 then "-" + Digits(-(v as int), 10, 19) else Digits(v, 10, 20)
  }

  /** strconv.ParseUint(s, base, 64). */
  function ParseUint(s: string, b: Base): Option<uint64>
  {
    if s == "" then None
    else match Value(s, b)
      case Some(n) => if n < TWO64 then Some(n) else None
      case None => None
  }

  /** strconv.ParseInt(s, 10, 64). */
  function ParseInt(s: string): Option<int64>
  {
    if s == "" then None
    else
      var negative := s[0] == '-';
      match ParseUint(if negative || s[0] == '+' then s[1..] else s, 10)
      case None => None
      case Some(n) =>
        if negative then (if n <= TWO63 then Some(-(n as int)) else None)
        else (if n < TWO63 then Some(n) else None)
  }

  lemma HexRoundTrip(u: uint64)
    ensures ParseUint(Hex(u), 16) == Some(u)
  {
    HexFits(u);
    DigitsRoundTrip(u, 16, 16);
  }

  lemma DecimalRoundTrip(v: int64)
    ensures ParseInt(Decimal20(v)) == Some(v)
    ensures |Decimal20(v)| == 20 && ':' !in Decimal20(v)
  {
    WordPowers();
    if v < 0 {
      var magnitude := -(v as int);
      DigitsShape(magnitude, 10, 19);
      DigitsRoundTrip(magnitude, 10, 19);
      assert Decimal20(v)[1..] == Digits(magnitude, 10, 19);
    } else {
      DigitsShape(v, 10, 20);
      DigitsRoundTrip(v, 10, 20);
      assert Decimal20(v)[0] in Digits(v, 10, 20);
    }
  }

  // ---------- unpadded base64 ----------

  function Sextet(n: nat): char
    requires n < 64
  {
    if n < 26 then ('A' as int + n) as char
    else if n < 52 then ('a' as int + n - 26) as char
    else if n < 62 then ('0' as int + n - 52) as char
    else if n == 62 then '+' else '/'
  }

  function SextetValue(c: char): (v: Option<nat>)
    ensures v.Some? ==> v.value < 64
  {
    if 'A' <= c <= 'Z' then Some(c as int - 'A' as int)
    else if 'a' <= c <= 'z' then Some(c as int - 'a' as int + 26)
    else if '0' <= c <= '9' then Some(c as int - '0' as int + 52)
    else if c == '+' then Some(62) else if c == '/' then Some(63) else None
  }

  /** base64.RawStdEncoding.EncodeToString. */
  function Encode64(b: seq<byte>): string
  {
    if |b| == 0 then ""
    else if |b| == 1 then [Sextet(b[0] / 4), Sextet(b[0] % 4 * 16)]
    else if |b| == 2 then
      [Sextet(b[0] / 4), Sextet(b[0] % 4 * 16 + b[1] / 16), Sextet(b[1] % 16 * 4)]
    else
      [Sextet(b[0] / 4), Sextet(b[0] % 4 * 16 + b[1] / 16),
       Sextet(b[1] % 16 * 4 + b[2] / 64), Sextet(b[2] % 64)] + Encode64(b[3..])
  }

  function DropNewlines(s: string): string
  {
    if s == "" then ""
    else if s[0] == '\n' || s[0] == '\r' then DropNewlines(s[1..])
    else [s[0]] + DropNewlines(s[1..])
  }

  /** Quanta of four characters, a last one of two or three; bits left over are ignored. */
  function DecodeQuanta(s: string): Option<seq<byte>>
  {
    if |s| == 0 then Some([])
    else if |s| == 1 then None
    else match (SextetValue(s[0]), SextetValue(s[1]))
      case (Some(p), Some(q)) =>
        var first: byte := p * 4 + q / 16;
        if |s| == 2 then Some([first])
        else (match SextetValue(s[2])
          case None => None
          case Some(r) =>
            var second: byte := q % 16 * 16 + r / 4;
            if |s| == 3 then Some([first, second])
            else (match (SextetValue(s[3]), DecodeQuanta(s[4..]))
              case (Some(t), Some(rest)) =>
                var third: byte := r % 4 * 64 + t;
                Some([first, second, third] + rest)
              case _ => None))
      case _ => None
  }

  /** base64.RawStdEncoding.DecodeString: line breaks are skipped, trailing bits not checked. */
  function Decode64(s: string): Option<seq<byte>> { DecodeQuanta(DropNewlines(s)) }

  lemma SextetRoundTrip(n: nat)
    requires n < 64
    ensures SextetValue(Sextet(n)) == Some(n)
  {}

  lemma TripleBits(a: byte, b: byte, c: byte)
    ensures a / 4 * 4 + (a % 4 * 16 + b / 16) / 16 == a
    ensures (a % 4 * 16 + b / 16) % 16 * 16 + (b % 16 * 4 + c / 64) / 4 == b
    ensures (b % 16 * 4 + c / 64) % 4 * 64 + c % 64 == c
    ensures a / 4 < 64 && a % 4 * 16 + b / 16 < 64 && b % 16 * 4 + c / 64 < 64
  {
    assert a == a / 4 * 4 + a % 4 && b == b / 16 * 16 + b % 16 && c == c / 64 * 64 + c % 64;
    var hi, lo := a % 4, b / 16;
    assert 0 <= hi < 4 && 0 <= lo < 16;
    assert (hi * 16 + lo) / 16 == hi && (hi * 16 + lo) % 16 == lo;
    var mid, top := b % 16, c / 64;
    assert 0 <= mid < 16 && 0 <= top < 4;
    assert (mid * 4 + top) / 4 == mid && (mid * 4 + top) % 4 == top;
  }

  /** Four sextets decode to the three bytes their bits make. */
  lemma QuantumDecodes(p: nat, q: nat, r: nat, t: nat, rest: string)
    requires p < 64 && q < 64 && r < 64 && t < 64 && DecodeQuanta(rest).Some?
    ensures p * 4 + q / 16 < 256 && q % 16 * 16 + r / 4 < 256 && r % 4 * 64 + t < 256
    ensures DecodeQuanta([Sextet(p), Sextet(q), Sextet(r), Sextet(t)] + rest)
            == Some([p * 4 + q / 16, q % 16 * 16 + r / 4, r % 4 * 64 + t] + DecodeQuanta(rest).value)
  {
    hide Sextet, SextetValue;
    SextetRoundTrip(p);
    SextetRoundTrip(q);
    SextetRoundTrip(r);
    SextetRoundTrip(t);
    var s := [Sextet(p), Sextet(q), Sextet(r), Sextet(t)] + rest;
    assert s[4..] == rest;
    assert s[0] == Sextet(p) && s[1] == Sextet(q) && s[2] == Sextet(r) && s[3] == Sextet(t);
  }

  /** A quantum of three bytes, decoded back in front of whatever follows. */
  lemma QuantumRoundTrip(a: byte, b: byte, c: byte, rest: string)
    requires DecodeQuanta(rest).Some?
    ensures var s := [Sextet(a / 4), Sextet(a % 4 * 16 + b / 16), Sextet(b % 16 * 4 + c / 64), Sextet(c % 64)];
            DecodeQuanta(s + rest) == Some([a, b, c] + DecodeQuanta(rest).value)
  {
    hide DecodeQuanta, Sextet;
    TripleBits(a, b, c);
    QuantumDecodes(a / 4, a % 4 * 16 + b / 16, b % 16 * 4 + c / 64, c % 64, rest);
  }

  lemma LastByte(a: byte)
    ensures DecodeQuanta([Sextet(a / 4), Sextet(a % 4 * 16)]) == Some([a])
  {
    TripleBits(a, 0, 0);
    var p, q := a / 4, a % 4 * 16;
    SextetRoundTrip(p);
    SextetRoundTrip(q);
    assert p * 4 + q / 16 == a;
  }

  lemma LastTwoBytes(a: byte, b: byte)
    ensures DecodeQuanta([Sextet(a / 4), Sextet(a % 4 * 16 + b / 16), Sextet(b % 16 * 4)]) == Some([a, b])
  {
    TripleBits(a, b, 0);
    var p, q, r := a / 4, a % 4 * 16 + b / 16, b % 16 * 4;
    SextetRoundTrip(p);
    SextetRoundTrip(q);
    SextetRoundTrip(r);
    assert p * 4 + q / 16 == a && q % 16 * 16 + r / 4 == b;
  }

  lemma NothingToDecode()
    ensures DecodeQuanta("") == Some([])
  {}

  lemma {:induction false} QuantaRoundTrip(b: seq<byte>)
    ensures DecodeQuanta(Encode64(b)) == Some(b)
  {
    hide Sextet, DecodeQuanta;
    if |b| == 0 {
      NothingToDecode();
    } else if |b| == 1 {
      LastByte(b[0]);
      assert b == [b[0]];
    } else if |b| == 2 {
      LastTwoBytes(b[0], b[1]);
      assert b == [b[0], b[1]];
    } else {
      QuantaRoundTrip(b[3..]);
      QuantumRoundTrip(b[0], b[1], b[2], Encode64(b[3..]));
      assert b == [b[0], b[1], b[2]] + b[3..];
    }
  }

  lemma {:induction false} Encode64Plain(b: seq<byte>)
    ensures forall c :: c in Encode64(b) ==> SextetValue(c).Some?
  {
    if |b| >= 3 { Encode64Plain(b[3..]); }
  }

  lemma {:induction false} NoNewlinesToDrop(s: string)
    requires '\n' !in s && '\r' !in s
    ensures DropNewlines(s) == s
  {
    if s != "" {
      NoNewlinesToDrop(s[1..]);
      assert s == [s[0]] + s[1..];
    }
  }

  lemma BriefRoundTrip(b: seq<byte>)
    ensures Decode64(Encode64(b)) == Some(b)
    ensures ':' !in Encode64(b)
  {
    Encode64Plain(b);
    NoNewlinesToDrop(Encode64(b));
    QuantaRoundTrip(b);
  }

  // ---------- the member ----------

  const SEPARATOR: char := ':'

  function ValueField(s: Score): string { Hex(SortableUint(s.value)) }
  function TieField(s: Score): string { Hex(Complement(SortableUint(s.tie))) }
  function OwnerField(s: Score): string { Hex(Complement(SortableUint(s.owner))) }

  function EncodeMember(s: Score): string
  {
    ValueField(s) + [SEPARATOR] + TieField(s) + [SEPARATOR] + OwnerField(s) + [SEPARATOR] + Decimal20(s.owner)
  }

  function EncodeEntry(s: Score): string
  {
    if |s.brief| == 0 then EncodeMember(s) + [SEPARATOR]
    else EncodeMember(s) + [SEPARATOR] + Encode64(s.brief)
  }

  function DecodeEntry(raw: string): Decoded
  {
    var parts := Split(raw, SEPARATOR);
    if |parts| != 5 then Err(FieldCount)
    else match ParseUint(parts[0], 16)
      case None => Err(BadValue)
      case Some(value) =>
      match ParseUint(parts[1], 16)
      case None => Err(BadTie)
      case Some(tie) =>
      match ParseInt(parts[3])
      case None => Err(BadOwner)
      case Some(owner) =>
        var bare := Score(owner, FromWord(FlipTop(value)), FromWord(FlipTop(Complement(tie))), []);
        if parts[4] == "" then Ok(bare)
        else match Decode64(parts[4])
          case None => Err(BadBrief)
          case Some(brief) => Ok(bare.(brief := brief))
  }

  /** What is read back: exactly five fields, of which value, tie and owner are numbers and the
      brief is empty or base64; everything else is refused. */
  lemma DecodeMeaning(raw: string)
    ensures var parts := Split(raw, SEPARATOR);
      DecodeEntry(raw).Ok? <==>
        && |parts| == 5 && ParseUint(parts[0], 16).Some? && ParseUint(parts[1], 16).Some? && ParseInt(parts[3]).Some?
        && (parts[4] == "" || Decode64(parts[4]).Some?)
    ensures DecodeEntry(raw).Ok? ==>
      var parts, score := Split(raw, SEPARATOR), DecodeEntry(raw).score;
      && SortableUint(score.value) == ParseUint(parts[0], 16).value
      && Complement(SortableUint(score.tie)) == ParseUint(parts[1], 16).value
      && score.owner == ParseInt(parts[3]).value
      && score.brief == if parts[4] == "" then [] else Decode64(parts[4]).value
  {
    hide Split, ParseUint, ParseInt, Decode64;
  }

  /** The five fields of an entry, none of which contains the separator. */
  lemma EntryFields(s: Score)
    ensures Split(EncodeEntry(s), SEPARATOR) ==
            [ValueField(s), TieField(s), OwnerField(s), Decimal20(s.owner), Encode64(s.brief)]
  {
    HexFits(SortableUint(s.value));
    HexFits(Complement(SortableUint(s.tie)));
    HexFits(Complement(SortableUint(s.owner)));
    DecimalRoundTrip(s.owner);
    BriefRoundTrip(s.brief);
    var parts := [ValueField(s), TieField(s), OwnerField(s), Decimal20(s.owner), Encode64(s.brief)];
    EntryIsJoin(s);
    SplitJoin(parts, SEPARATOR);
  }

  lemma EntryIsJoin(s: Score)
    ensures EncodeEntry(s) ==
            Join([ValueField(s), TieField(s), OwnerField(s), Decimal20(s.owner), Encode64(s.brief)], SEPARATOR)
  {
    hide Hex, Decimal20, Encode64, Join;
    var a, b, c, d, e := ValueField(s), TieField(s), OwnerField(s), Decimal20(s.owner), Encode64(s.brief);
    JoinFirst(a, [b, c, d, e], SEPARATOR);
    JoinFirst(b, [c, d, e], SEPARATOR);
    JoinFirst(c, [d, e], SEPARATOR);
    JoinFirst(d, [e], SEPARATOR);
    JoinOne(e);
    assert [a, b, c, d, e] == [a] + [b, c, d, e] && [b, c, d, e] == [b] + [c, d, e];
    assert [c, d, e] == [c] + [d, e] && [d, e] == [d] + [e];
    NoBriefNoText(s);
    assert EncodeEntry(s) == EncodeMember(s) + [SEPARATOR] + e;
  }

  lemma JoinOne(e: string)
    ensures Join([e], SEPARATOR) == e
  {}

  lemma NoBriefNoText(s: Score)
    ensures |s.brief| == 0 ==> Encode64(s.brief) == ""
  {}

  /** Every score survives the trip, whatever its value, tie, owner and brief. */
  lemma DecodeUndoesEncode(s: Score)
    ensures DecodeEntry(EncodeEntry(s)) == Ok(s)
  {
    EntryFields(s);
    HexRoundTrip(SortableUint(s.value));
    HexRoundTrip(Complement(SortableUint(s.tie)));
    DecimalRoundTrip(s.owner);
    BriefRoundTrip(s.brief);
    SortableUintOrder(s.value, s.value);
    SortableUintOrder(s.tie, s.tie);
    if |s.brief| > 0 { Encode64NotEmpty(s.brief); }
  }

  lemma Encode64NotEmpty(b: seq<byte>)
    requires |b| > 0
    ensures Encode64(b) != ""
  {}

  lemma EntryNotEmpty(s: Score)
    ensures EncodeEntry(s) != ""
  {
    HexFits(SortableUint(s.value));
  }

  lemma HexOrder(u: uint64, v: uint64)
    ensures Less(Hex(u), Hex(v)) <==> u < v
    ensures Hex(u) == Hex(v) <==> u == v
  {
    HexFits(u);
    HexFits(v);
    DigitsOrder(u, v, 16, 16);
  }

  /** A field and its separator decide before the rest. */
  lemma LessOfField(x: string, y: string, s: string, t: string)
    requires |x| == |y|
    ensures Less(x + [SEPARATOR] + s, y + [SEPARATOR] + t) <==> Less(x, y) || (x == y && Less(s, t))
  {
    var sep := [SEPARATOR];
    assert x + sep + s == x + (sep + s) && y + sep + t == y + (sep + t);
    LessOfFields(x, y, sep + s, sep + t);
    LessOfFields(sep, sep, s, t);
    LessIsStrictTotal(sep, sep);
  }

  function EntryRest(s: Score): string { Decimal20(s.owner) + [SEPARATOR] + Encode64(s.brief) }

  lemma EntryLayout(s: Score)
    ensures EncodeEntry(s) ==
            ValueField(s) + [SEPARATOR] + (TieField(s) + [SEPARATOR] + (OwnerField(s) + [SEPARATOR] + EntryRest(s)))
    ensures |ValueField(s)| == |TieField(s)| == |OwnerField(s)| == 16
  {
    HexFits(SortableUint(s.value));
    HexFits(Complement(SortableUint(s.tie)));
    HexFits(Complement(SortableUint(s.owner)));
  }

  /** Byte order of two entries, read in reverse, is the ranking order: across zero, and
      whatever the briefs are, as long as the owners differ. */
  lemma EntryOrder(a: Score, b: Score)
    requires a.owner != b.owner
    ensures Less(EncodeEntry(b), EncodeEntry(a)) <==> Better(a, b)
  {
    EntryLayout(a);
    EntryLayout(b);
    var oa, ob := OwnerField(a) + [SEPARATOR] + EntryRest(a), OwnerField(b) + [SEPARATOR] + EntryRest(b);
    LessOfField(ValueField(b), ValueField(a), TieField(b) + [SEPARATOR] + ob, TieField(a) + [SEPARATOR] + oa);
    LessOfField(TieField(b), TieField(a), ob, oa);
    LessOfField(OwnerField(b), OwnerField(a), EntryRest(b), EntryRest(a));
    WordOrders(a, b);
  }

  lemma WordOrders(a: Score, b: Score)
    ensures Less(ValueField(b), ValueField(a)) <==> a.value > b.value
    ensures ValueField(b) == ValueField(a) <==> a.value == b.value
    ensures Less(TieField(b), TieField(a)) <==> a.tie < b.tie
    ensures TieField(b) == TieField(a) <==> a.tie == b.tie
    ensures Less(OwnerField(b), OwnerField(a)) <==> a.owner < b.owner
    ensures OwnerField(b) == OwnerField(a) <==> a.owner == b.owner
  {
    HexOrder(SortableUint(b.value), SortableUint(a.value));
    HexOrder(Complement(SortableUint(b.tie)), Complement(SortableUint(a.tie)));
    HexOrder(Complement(SortableUint(b.owner)), Complement(SortableUint(a.owner)));
    SortableUintOrder(b.value, a.value);
    SortableUintOrder(a.tie, b.tie);
    SortableUintOrder(a.owner, b.owner);
    SortableUintOrder(a.value, b.value);
    SortableUintOrder(b.tie, a.tie);
    SortableUintOrder(b.owner, a.owner);
  }
}
