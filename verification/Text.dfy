/** Byte strings as the services use them: memcmp order, splitting and joining, and
    fixed-width numerals. Every string here is ASCII, so a char stands for a byte. */
module Text {
  datatype Option<+T> = None | Some(value: T)

  // ---------- byte order ----------

  /** Bytewise lexicographic order, a proper prefix first (memcmp, then length). */
  predicate Less(a: string, b: string)
  {
    b != [] && (a == [] || a[0] < b[0] || (a[0] == b[0] && Less(a[1..], b[1..])))
  }

  lemma {:induction false} LessIsStrictTotal(a: string, b: string)
    ensures !Less(a, a)
    ensures a != b ==> (Less(a, b) <==> !Less(b, a))
    decreases |a|
  {
    if a != [] {
      LessIsStrictTotal(a[1..], a[1..]);
      if b != [] && a[0] == b[0] {
        LessIsStrictTotal(a[1..], b[1..]);
        assert a[1..] == b[1..] ==> a == [a[0]] + b[1..] == b;
      }
    }
  }

  lemma {:induction false} LessTransitive(a: string, b: string, c: string)
    requires Less(a, b) && Less(b, c)
    ensures Less(a, c)
    decreases |a|
  {
    if a != [] && a[0] == b[0] == c[0] {
      LessTransitive(a[1..], b[1..], c[1..]);
    }
  }

  /** A field of fixed width decides the order before anything that follows it does. */
  lemma {:induction false} LessOfFields(x: string, y: string, s: string, t: string)
    requires |x| == |y|
    ensures Less(x + s, y + t) <==> Less(x, y) || (x == y && Less(s, t))
    decreases |x|
  {
    if x == [] {
      assert x + s == s && y + t == t;
    } else {
      assert (x + s)[1..] == x[1..] + s && (y + t)[1..] == y[1..] + t;
      assert x == [x[0]] + x[1..] && y == [y[0]] + y[1..];
      LessOfFields(x[1..], y[1..], s, t);
    }
  }

  // ---------- split and join ----------

  /** Go's strings.Split with a one-byte separator: always at least one part. */
  function Split(s: string, sep: char): (parts: seq<string>)
    ensures |parts| >= 1
  {
    if s == "" then [""]
    else
      var rest := Split(s[1..], sep);
      if s[0] == sep then [""] + rest else [[s[0]] + rest[0]] + rest[1..]
  }

  function Join(parts: seq<string>, sep: char): string
  {
    if |parts| == 0 then ""
    else if |parts| == 1 then parts[0]
    else parts[0] + [sep] + Join(parts[1..], sep)
  }

  lemma JoinFirst(p: string, rest: seq<string>, sep: char)
    requires |rest| >= 1
    ensures Join([p] + rest, sep) == p + [sep] + Join(rest, sep)
  {}

  lemma {:induction false} SplitPlain(p: string, sep: char)
    requires sep !in p
    ensures Split(p, sep) == [p]
  {
    if p != "" {
      SplitPlain(p[1..], sep);
      assert p == [p[0]] + p[1..];
    }
  }

  lemma {:induction false} SplitFirst(p: string, t: string, sep: char)
    requires sep !in p
    ensures Split(p + [sep] + t, sep) == [p] + Split(t, sep)
  {
    var s := p + [sep] + t;
    if p == "" {
      assert s[1..] == t;
    } else {
      SplitFirst(p[1..], t, sep);
      assert s[1..] == p[1..] + [sep] + t;
      assert p == [p[0]] + p[1..];
      assert Split(s, sep) == [[s[0]] + p[1..]] + Split(t, sep);
    }
  }

  lemma {:induction false} SplitJoin(parts: seq<string>, sep: char)
    requires |parts| >= 1
    requires forall p :: p in parts ==> sep !in p
    ensures Split(Join(parts, sep), sep) == parts
  {
    if |parts| == 1 {
      SplitPlain(parts[0], sep);
    } else {
      SplitJoin(parts[1..], sep);
      SplitFirst(parts[0], Join(parts[1..], sep), sep);
    }
  }

  lemma {:induction false} SplitHasNoSep(s: string, sep: char)
    ensures forall p :: p in Split(s, sep) ==> sep !in p
  {
    if s != "" {
      SplitHasNoSep(s[1..], sep);
      var rest := Split(s[1..], sep);
      assert rest[0] in rest;
      assert forall p :: p in rest[1..] ==> p in rest;
    }
  }

  /** ASCII white space at both ends, as strings.TrimSpace removes it. */
  predicate IsSpace(c: char) { c in " \t\n\r" || c == '\U{0B}' || c == '\U{0C}' }

  function TrimSpace(s: string): string
    decreases |s|
  {
    if s != "" && IsSpace(s[0]) then TrimSpace(s[1..])
    else if s != "" && IsSpace(s[|s| - 1]) then TrimSpace(s[..|s| - 1])
    else s
  }

  /** What is trimmed is white space at the ends, all of it, and nothing else. */
  lemma {:induction false} TrimSpaceMeaning(s: string) returns (from: nat, to: nat)
    ensures from <= to <= |s| && TrimSpace(s) == s[from..to]
    ensures (forall i | 0 <= i < from :: IsSpace(s[i])) && (forall i | to <= i < |s| :: IsSpace(s[i]))
    ensures from < to ==> !IsSpace(s[from]) && !IsSpace(s[to - 1])
    decreases |s|
  {
    hide IsSpace;
    if s != "" && IsSpace(s[0]) {
      var rest := s[1..];
      var f, t := TrimSpaceMeaning(rest);
      from, to := f + 1, t + 1;
      assert rest[f..t] == s[from..to];
      forall i | 0 <= i < from
        ensures IsSpace(s[i])
      {
        if i > 0 { assert s[i] == rest[i - 1]; }
      }
      forall i | to <= i < |s|
        ensures IsSpace(s[i])
      {
        assert s[i] == rest[i - 1];
      }
    } else if s != "" && IsSpace(s[|s| - 1]) {
      var rest := s[..|s| - 1];
      from, to := TrimSpaceMeaning(rest);
      assert rest[from..to] == s[from..to];
      forall i | to <= i < |s|
        ensures IsSpace(s[i])
      {
        if i < |s| - 1 { assert s[i] == rest[i]; }
      }
    } else {
      from, to := 0, |s|;
    }
  }

  lemma {:induction false} TrimSpaceTwice(s: string)
    ensures TrimSpace(TrimSpace(s)) == TrimSpace(s)
    decreases |s|
  {
    if s != "" && IsSpace(s[0]) { TrimSpaceTwice(s[1..]); }
    else if s != "" && IsSpace(s[|s| - 1]) { TrimSpaceTwice(s[..|s| - 1]); }
  }

  // ---------- numerals ----------

  /** The two bases the member encoding uses. */
  type Base = b: nat | b == 10 || b == 16 witness 10

  function Pow(b: nat, w: nat): nat { if w == 0 then 1 else b * Pow(b, w - 1) }

  function DigitChar(d: nat): char
    requires d < 16
  {
    if d < 10 then ('0' as int + d) as char else ('a' as int + d - 10) as char
  }

  /** strconv's digit table: both letter cases are read, only lower case is written. */
  function DigitValue(c: char, b: Base): Option<nat>
  {
    if '0' <= c <= '9' then Some(c as int - '0' as int)
    else if b == 16 && 'a' <= c <= 'f' then Some(c as int - 'a' as int + 10)
    else if b == 16 && 'A' <= c <= 'F' then Some(c as int - 'A' as int + 10)
    else None
  }

  /** The w lowest digits of u, most significant first, zero padded. */
  function Digits(u: nat, b: Base, w: nat): string
  {
    if w == 0 then "" else Digits(u / b, b, w - 1) + [DigitChar(u % b)]
  }

  function Value(s: string, b: Base): Option<nat>
  {
    if s == "" then Some(0)
    else match (Value(s[..|s| - 1], b), DigitValue(s[|s| - 1], b))
      case (Some(hi), Some(d)) => Some(hi * b + d)
      case _ => None
  }

  lemma {:induction false} DigitsShape(u: nat, b: Base, w: nat)
    ensures |Digits(u, b, w)| == w
    ensures forall c :: c in Digits(u, b, w) ==> '0' <= c <= '9' || 'a' <= c <= 'f'
  {
    if w > 0 { DigitsShape(u / b, b, w - 1); }
  }

  lemma DivBelow(u: nat, b: Base, p: nat)
    requires u < b * p
    ensures u / b < p && u == (u / b) * b + u % b
  {
    if b == 10 { assert u < 10 * p; } else { assert u < 16 * p; }
  }

  lemma DigitCharValue(d: nat, b: Base)
    requires d < b
    ensures DigitValue(DigitChar(d), b) == Some(d)
  {}

  lemma ValueOneMore(s: string, hi: nat, d: nat, b: Base)
    requires Value(s, b) == Some(hi) && d < b
    ensures Value(s + [DigitChar(d)], b) == Some(hi * b + d)
  {
    hide DigitChar, DigitValue;
    DigitCharValue(d, b);
    var t := s + [DigitChar(d)];
    assert t[..|t| - 1] == s && t[|t| - 1] == DigitChar(d);
  }

  lemma {:induction false} DigitsRoundTrip(u: nat, b: Base, w: nat)
    requires u < Pow(b, w)
    ensures Value(Digits(u, b, w), b) == Some(u)
  {
    hide DigitChar, Value;
    if w == 0 {
      ValueOfNothing(b);
    } else {
      DivBelow(u, b, Pow(b, w - 1));
      DigitsRoundTrip(u / b, b, w - 1);
      ValueOneMore(Digits(u / b, b, w - 1), u / b, u % b, b);
    }
  }

  lemma ValueOfNothing(b: Base)
    ensures Value("", b) == Some(0)
  {}

  lemma DivOrder(u: nat, v: nat, b: Base)
    ensures u < v <==> u / b < v / b || (u / b == v / b && u % b < v % b)
    ensures u == v <==> u / b == v / b && u % b == v % b
  {
    if b == 10 {
      assert u < v <==> u / 10 < v / 10 || (u / 10 == v / 10 && u % 10 < v % 10);
    } else {
      assert u < v <==> u / 16 < v / 16 || (u / 16 == v / 16 && u % 16 < v % 16);
    }
  }

  lemma DigitCharOrder(d: nat, e: nat)
    requires d < 16 && e < 16
    ensures Less([DigitChar(d)], [DigitChar(e)]) <==> d < e
    ensures DigitChar(d) == DigitChar(e) <==> d == e
  {}

  /** Fixed-width numerals are in byte order exactly when the numbers are in order. */
  lemma {:induction false} DigitsOrder(u: nat, v: nat, b: Base, w: nat)
    requires u < Pow(b, w) && v < Pow(b, w)
    ensures Less(Digits(u, b, w), Digits(v, b, w)) <==> u < v
    ensures Digits(u, b, w) == Digits(v, b, w) <==> u == v
  {
    hide Less, DigitChar;
    if w == 0 {
      LessIsStrictTotal("", "");
    } else {
      DivBelow(u, b, Pow(b, w - 1));
      DivBelow(v, b, Pow(b, w - 1));
      var uh, vh, ul, vl := u / b, v / b, u % b, v % b;
      DigitsOrder(uh, vh, b, w - 1);
      DivOrder(u, v, b);
      DigitsOrderStep(uh, vh, ul, vl, b, w - 1);
    }
  }

  lemma DigitsOrderStep(uh: nat, vh: nat, ul: nat, vl: nat, b: Base, w: nat)
    requires ul < b && vl < b
    requires Less(Digits(uh, b, w), Digits(vh, b, w)) <==> uh < vh
    requires Digits(uh, b, w) == Digits(vh, b, w) <==> uh == vh
    ensures var x, y := Digits(uh, b, w) + [DigitChar(ul)], Digits(vh, b, w) + [DigitChar(vl)];
      && (Less(x, y) <==> uh < vh || (uh == vh && ul < vl))
      && (x == y <==> uh == vh && ul == vl)
  {
    var x, y := Digits(uh, b, w), Digits(vh, b, w);
    DigitsShape(uh, b, w);
    DigitsShape(vh, b, w);
    LessOfFields(x, y, [DigitChar(ul)], [DigitChar(vl)]);
    DigitCharOrder(ul, vl);
    var p, q := x + [DigitChar(ul)], y + [DigitChar(vl)];
    assert p[..w] == x && q[..w] == y && p[w] == DigitChar(ul) && q[w] == DigitChar(vl);
  }
}
