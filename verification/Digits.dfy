/** The digit patterns of the generated schemas: regular expressions, the strings they match, and the numbers meant. */
module Digits {

  datatype Regex =
    | Nothing
    | Class(lo: char, hi: char)
    | Times(item: Regex, least: nat, most: nat)
    | Then(first: Regex, rest: Regex)
    | Either(left: Regex, right: Regex)

  /** A whole-string match, as `^...$` asks for in ECMA 262. */
  predicate Matches(r: Regex, s: string)
    decreases r, 0, |s|
  {
    match r
    case Nothing => s == ""
    case Class(lo, hi) => |s| == 1 && lo <= s[0] <= hi
    case Times(item, least, most) => Repeats(item, least, most, s)
    case Then(first, rest) => exists k :: 0 <= k <= |s| && Matches(first, s[..k]) && Matches(rest, s[k..])
    case Either(left, right) => Matches(left, s) || Matches(right, s)
  }

  predicate Repeats(item: Regex, least: nat, most: nat, s: string)
    decreases item, 1, most
  {
    || (least == 0 && s == "")
    || (&& most > 0
        && exists k :: 0 <= k <= |s| && Matches(item, s[..k]) && Repeats(item, Fewer(least), most - 1, s[k..]))
  }

  function Fewer(least: nat): nat {
    if least == 0 then 0 else least - 1
  }

  // ----- decimal numerals

  predicate AllDigits(s: string) {
    forall i :: 0 <= i < |s| ==> '0' <= s[i] <= '9'
  }

  function Value(s: string): nat
    requires AllDigits(s)
  {
    if s == "" then 0 else Value(s[..|s| - 1]) * 10 + (s[|s| - 1] as int - '0' as int)
  }

  function Digit(d: nat): char
  {
    (d % 10 + '0' as int) as char
  }

  function Decimal(n: nat): string {
    var last := [Digit(n)];
    if n < 10 then last else Decimal(n / 10) + last
  }

  /** A numeral without superfluous leading zeros. */
  predicate Canonical(s: string) {
    s != "" && AllDigits(s) && (s[0] == '0' ==> |s| == 1)
  }

  function Pow(k: nat): nat {
    if k == 0 then 1 else 10 * Pow(k - 1)
  }

  lemma {:induction false} DecimalIsCanonical(n: nat)
    ensures Canonical(Decimal(n)) && Value(Decimal(n)) == n
    ensures n > 0 ==> Decimal(n)[0] != '0'
  {
    if n >= 10 {
      DecimalIsCanonical(n / 10);
      assert Decimal(n)[..|Decimal(n)| - 1] == Decimal(n / 10);
    }
  }

  lemma {:induction false} CanonicalIsDecimal(s: string)
    requires Canonical(s)
    ensures Decimal(Value(s)) == s
  {
    var front := s[..|s| - 1];
    if front == "" {
      assert Value(front) == 0;
      assert s == [s[0]];
    } else {
      CanonicalIsDecimal(front);
      LeadingDigit(front);
      PowPositive(|front| - 1);
      assert s == front + [s[|s| - 1]];
    }
  }

  lemma {:induction false} PowPositive(k: nat)
    ensures Pow(k) > 0
  {
    if k > 0 { PowPositive(k - 1); }
  }

  lemma {:induction false} PowGrows(a: nat, b: nat)
    requires a <= b
    ensures Pow(a) <= Pow(b)
  {
    if a < b { PowGrows(a, b - 1); }
  }

  lemma {:induction false} ValueBelow(s: string)
    requires AllDigits(s)
    ensures Value(s) < Pow(|s|)
  {
    if s != "" { ValueBelow(s[..|s| - 1]); }
  }

  lemma {:induction false} LeadingDigit(s: string)
    requires s != "" && AllDigits(s) && s[0] != '0'
    ensures Pow(|s| - 1) <= Value(s)
  {
    if |s| > 1 {
      LeadingDigit(s[..|s| - 1]);
    } else {
      assert Value(s[..0]) == 0;
    }
  }

  /** Among numerals of one length the value determines the digits. */
  lemma {:induction false} ValueInjective(a: string, b: string)
    requires AllDigits(a) && AllDigits(b) && |a| == |b| && Value(a) == Value(b)
    ensures a == b
  {
    if a != "" {
      var n := |a| - 1;
      ValueInjective(a[..n], b[..n]);
      assert a == a[..n] + [a[n]] && b == b[..n] + [b[n]];
    }
  }

  /** Cutting k digits off the end divides by Pow(k). */
  lemma {:induction false} ValueSplit(s: string, at: nat)
    requires AllDigits(s) && at <= |s|
    ensures Value(s[..at]) * Pow(|s| - at) <= Value(s) < (Value(s[..at]) + 1) * Pow(|s| - at)
  {
    if at == |s| {
      assert s[..at] == s;
    } else {
      var front := s[..|s| - 1];
      ValueSplit(front, at);
      assert front[..at] == s[..at];
      Scale(Value(s[..at]), Pow(|front| - at));
      Scale(Value(s[..at]) + 1, Pow(|front| - at));
    }
  }

  lemma {:induction false} Scale(a: int, p: int)
    ensures a * (10 * p) == 10 * (a * p)
  {
  }

  lemma {:induction false} Between(low: nat, q: nat, high: nat, p: nat, v: nat)
    requires p > 0 && q * p <= v < (q + 1) * p
    ensures low <= q <= high <==> low * p <= v < (high + 1) * p
  {
    if low <= q { assert low * p <= q * p; }
    if q <= high { assert (q + 1) * p <= (high + 1) * p; }
    if q < low { assert (q + 1) * p <= low * p; }
    if high < q { assert (high + 1) * p <= q * p; }
  }

  // ----- what the building blocks match

  const ZERO := Class('0', '0')
  const DIGIT := Class('0', '9')

  function Literal(s: string): Regex {
    if s == "" then Nothing else Then(Class(s[0], s[0]), Literal(s[1..]))
  }

  lemma {:induction false} MatchesClassThen(lo: char, hi: char, rest: Regex, s: string)
    ensures Matches(Then(Class(lo, hi), rest), s) <==> s != "" && lo <= s[0] <= hi && Matches(rest, s[1..])
  {
    if s != "" && lo <= s[0] <= hi && Matches(rest, s[1..]) {
      assert Matches(Class(lo, hi), s[..1]);
    }
  }

  lemma {:induction false} MatchesLiteralThen(prefix: string, rest: Regex, s: string)
    ensures Matches(Then(Literal(prefix), rest), s) <==> prefix <= s && Matches(rest, s[|prefix|..])
  {
    forall k | 0 <= k <= |s| ensures Matches(Literal(prefix), s[..k]) <==> s[..k] == prefix {
      MatchesLiteral(prefix, s[..k]);
    }
    if prefix <= s {
      assert s[..|prefix|] == prefix;
    }
  }

  lemma {:induction false} MatchesLiteral(prefix: string, s: string)
    ensures Matches(Literal(prefix), s) <==> s == prefix
  {
    if prefix != "" {
      MatchesClassThen(prefix[0], prefix[0], Literal(prefix[1..]), s);
      if s != "" {
        MatchesLiteral(prefix[1..], s[1..]);
        if s[0] == prefix[0] && s[1..] == prefix[1..] {
          assert s == [s[0]] + s[1..] == prefix;
        }
      }
    }
  }

  lemma {:induction false} MatchesDigits(least: nat, most: nat, s: string)
    ensures Matches(Times(DIGIT, least, most), s) <==> AllDigits(s) && (least <= |s| <= most || |s| == least == 0)
    decreases most
  {
    RepeatsClass('0', '9', least, most, s);
    if most > 0 && s != "" {
      MatchesDigits(Fewer(least), most - 1, s[1..]);
      assert AllDigits(s) <==> '0' <= s[0] <= '9' && AllDigits(s[1..]) by {
        assert forall i :: 0 < i < |s| ==> s[i] == s[1..][i - 1];
      }
    }
  }

  lemma {:induction false} RepeatsClass(lo: char, hi: char, least: nat, most: nat, s: string)
    ensures s == "" ==> (Repeats(Class(lo, hi), least, most, s) <==> least == 0)
    ensures s != "" ==> (Repeats(Class(lo, hi), least, most, s)
                         <==> most > 0 && lo <= s[0] <= hi
                              && Matches(Times(Class(lo, hi), Fewer(least), most - 1), s[1..]))
  {
    var item := Class(lo, hi);
    if most > 0 {
      if Repeats(item, least, most, s) && s != "" {
        var k :| 0 <= k <= |s| && Matches(item, s[..k]) && Repeats(item, Fewer(least), most - 1, s[k..]);
        assert k == 1 && Matches(Times(item, Fewer(least), most - 1), s[1..]);
      }
      if s != "" && lo <= s[0] <= hi && Matches(Times(item, Fewer(least), most - 1), s[1..]) {
        assert Matches(item, s[..1]) && Repeats(item, Fewer(least), most - 1, s[1..]);
      }
    }
  }

  // ----- alternatives of a fixed width

  /** `prefix[lo-hi][0-9]{trailing}`; the prefix is written in decimal, and 0 stands for no prefix. */
  datatype Piece = Piece(prefix: nat, lo: nat, hi: nat, trailing: nat) {
    function Prefix(): string {
      if prefix == 0 then "" else Decimal(prefix)
    }

    function Expr(): Regex {
      Then(Literal(Prefix()), Then(Class(Digit(lo), Digit(hi)), Times(DIGIT, trailing, trailing)))
    }

    function Low(): nat {
      (prefix * 10 + lo) * Pow(trailing)
    }

    /** One past the largest number. */
    function High(): nat {
      (prefix * 10 + hi + 1) * Pow(trailing)
    }

    /** A proper class, and as many digits in front of the class as the width leaves. */
    predicate Wide(width: nat) {
      && lo <= hi <= 9 && trailing < width
      && if trailing + 1 == width then prefix == 0
         else Pow(width - trailing - 2) <= prefix < Pow(width - trailing - 1)
    }
  }

  lemma {:induction false} DecimalWidth(n: nat, width: nat)
    requires width > 0 && Pow(width - 1) <= n < Pow(width)
    ensures |Decimal(n)| == width
  {
    if n >= 10 {
      assert width != 1;
      assert Pow(width - 1) == 10 * Pow(width - 2);
      DecimalWidth(n / 10, width - 1);
    } else if width > 1 {
      PowGrows(1, width - 1);
    }
  }

  lemma {:induction false} PrefixIs(p: Piece, width: nat)
    requires p.Wide(width)
    ensures AllDigits(p.Prefix()) && |p.Prefix()| == width - 1 - p.trailing && Value(p.Prefix()) == p.prefix
  {
    if p.trailing + 1 < width {
      PowPositive(width - p.trailing - 2);
      DecimalWidth(p.prefix, width - p.trailing - 1);
      DecimalIsCanonical(p.prefix);
    }
  }

  predicate Numeral(s: string, width: nat, from: nat, below: nat) {
    AllDigits(s) && |s| == width && from <= Value(s) < below
  }

  lemma {:induction false} PieceDenotes(p: Piece, width: nat, s: string)
    requires p.Wide(width)
    ensures Matches(p.Expr(), s) <==> Numeral(s, width, p.Low(), p.High())
  {
    hide Matches, Repeats, Value, Decimal;
    PrefixIs(p, width);
    var prefix, lo, hi := p.Prefix(), Digit(p.lo), Digit(p.hi);
    var n := |prefix|;
    var rest := Times(DIGIT, p.trailing, p.trailing);
    MatchesLiteralThen(prefix, Then(Class(lo, hi), rest), s);
    if n < |s| {
      MatchesClassThen(lo, hi, rest, s[n..]);
      MatchesDigits(p.trailing, p.trailing, s[n..][1..]);
      assert s[n..][1..] == s[n + 1..];
      if AllDigits(s) && |s| == width {
        PieceOfWidth(p, width, s);
      } else if prefix <= s {
        assert forall i :: 0 <= i < n ==> s[i] == prefix[i];
        assert forall i :: n + 1 <= i < |s| ==> s[i] == s[n + 1..][i - n - 1];
      }
    } else if prefix <= s {
      MatchesClassThen(lo, hi, rest, s[n..]);
    }
  }

  lemma {:induction false} PieceOfWidth(p: Piece, width: nat, s: string)
    requires p.Wide(width) && AllDigits(s) && |s| == width
    ensures |p.Prefix()| < width
    ensures p.Low() <= Value(s) < p.High()
            <==> p.Prefix() <= s && Digit(p.lo) <= s[|p.Prefix()|] <= Digit(p.hi)
  {
    PrefixIs(p, width);
    var n := |p.Prefix()|;
    ValueSplit(s, n + 1);
    PowPositive(p.trailing);
    Between(p.prefix * 10 + p.lo, Value(s[..n + 1]), p.prefix * 10 + p.hi, Pow(p.trailing), Value(s));
    PieceHead(p, width, s[..n + 1]);
  }

  lemma {:induction false} PieceHead(p: Piece, width: nat, q: string)
    requires p.Wide(width) && AllDigits(q) && |q| == |p.Prefix()| + 1
    ensures p.prefix * 10 + p.lo <= Value(q) <= p.prefix * 10 + p.hi
            <==> p.Prefix() <= q && Digit(p.lo) <= q[|p.Prefix()|] <= Digit(p.hi)
  {
    PrefixIs(p, width);
    var n := |p.Prefix()|;
    assert Value(q) == Value(q[..n]) * 10 + (q[n] as int - '0' as int);
    assert p.Prefix() <= q <==> p.Prefix() == q[..n];
    if Value(q[..n]) == p.prefix {
      ValueInjective(q[..n], p.Prefix());
    }
  }

  function AnyOf(ps: seq<Piece>): Regex
    requires ps != []
  {
    if |ps| == 1 then ps[0].Expr() else Either(ps[0].Expr(), AnyOf(ps[1..]))
  }

  /** The pieces denote neighbouring intervals, without gap or overlap, of numerals of one width. */
  predicate Abut(ps: seq<Piece>, width: nat, from: nat, below: nat) {
    if ps == [] then from == below
    else
      && ps[0].Wide(width) && ps[0].Low() == from && ps[0].High() <= Pow(width)
      && Abut(ps[1..], width, ps[0].High(), below)
  }

  lemma {:induction false} AnyOfDenotes(ps: seq<Piece>, width: nat, from: nat, below: nat, s: string)
    requires ps != [] && Abut(ps, width, from, below)
    ensures Matches(AnyOf(ps), s) <==> Numeral(s, width, from, below)
  {
    PieceDenotes(ps[0], width, s);
    AbutOrdered(ps, width, from, below);
    if |ps| > 1 {
      AnyOfDenotes(ps[1..], width, ps[0].High(), below, s);
      AbutOrdered(ps[1..], width, ps[0].High(), below);
    }
  }

  lemma {:induction false} AbutOrdered(ps: seq<Piece>, width: nat, from: nat, below: nat)
    requires Abut(ps, width, from, below)
    ensures from <= below
    ensures ps != [] ==> from <= ps[0].High() && below <= Pow(width)
  {
    if ps != [] {
      var p := ps[0];
      Monotone(p.prefix * 10 + p.lo, p.prefix * 10 + p.hi + 1, Pow(p.trailing));
      AbutOrdered(ps[1..], width, p.High(), below);
    }
  }

  lemma {:induction false} Monotone(a: nat, b: nat, p: nat)
    requires a <= b
    ensures a * p <= b * p
  {
  }

  // ----- the patterns

  /** `[1-9][0-9]{0,more}` or one of the wide pieces. */
  function PositiveUint(more: nat, wide: seq<Piece>): Regex
    requires wide != []
  {
    Either(Then(Class('1', '9'), Times(DIGIT, 0, more)), AnyOf(wide))
  }

  function Uint(more: nat, wide: seq<Piece>): Regex
    requires wide != []
  {
    Either(ZERO, PositiveUint(more, wide))
  }

  lemma {:induction false} ShortDenotes(more: nat, s: string)
    ensures Matches(Then(Class('1', '9'), Times(DIGIT, 0, more)), s)
            <==> AllDigits(s) && 0 < |s| <= more + 1 && s[0] != '0'
  {
    hide Matches, Repeats;
    MatchesClassThen('1', '9', Times(DIGIT, 0, more), s);
    if s != "" {
      MatchesDigits(0, more, s[1..]);
      if '1' <= s[0] <= '9' && AllDigits(s[1..]) {
        assert forall i :: 0 < i < |s| ==> s[i] == s[1..][i - 1];
      }
    }
  }

  /** A first digit other than 0 ties the width of a numeral to its size. */
  lemma {:induction false} WidthBySize(s: string)
    requires s != "" && AllDigits(s)
    ensures s[0] != '0' ==> 0 < Pow(|s| - 1) <= Value(s) < Pow(|s|)
    ensures s[0] == '0' ==> Value(s) < Pow(|s| - 1)
    ensures s == "0" ==> Value(s) == 0
  {
    ValueBelow(s);
    PowPositive(|s| - 1);
    if s[0] == '0' {
      LeadingZero(s);
    } else {
      LeadingDigit(s);
    }
  }

  lemma {:induction false} PositiveUintDenotes(more: nat, wide: seq<Piece>, below: nat, s: string)
    requires wide != [] && Abut(wide, more + 2, Pow(more + 1), below)
    ensures Matches(PositiveUint(more, wide), s) <==> Canonical(s) && 0 < Value(s) < below
  {
    ShortDenotes(more, s);
    AnyOfDenotes(wide, more + 2, Pow(more + 1), below, s);
    AbutOrdered(wide, more + 2, Pow(more + 1), below);
    assert Matches(PositiveUint(more, wide), s)
      <==> Matches(Then(Class('1', '9'), Times(DIGIT, 0, more)), s) || Numeral(s, more + 2, Pow(more + 1), below);
    hide Matches, Abut, AnyOf, Pow;
    if s != "" && AllDigits(s) {
      WidthBySize(s);
      if |s| <= more + 1 { PowGrows(|s|, more + 1); }
      if |s| > more + 2 { PowGrows(more + 2, |s| - 1); }
    }
  }

  lemma {:induction false} LeadingZero(s: string)
    requires s != "" && AllDigits(s) && s[0] == '0'
    ensures Value(s) < Pow(|s| - 1)
    ensures |s| == 1 ==> Value(s) == 0
  {
    if |s| > 1 {
      LeadingZero(s[..|s| - 1]);
    } else {
      assert Value(s[..0]) == 0;
    }
  }

  lemma {:induction false} UintDenotes(more: nat, wide: seq<Piece>, below: nat, s: string)
    requires wide != [] && Abut(wide, more + 2, Pow(more + 1), below)
    ensures Matches(Uint(more, wide), s) <==> Canonical(s) && Value(s) < below
  {
    PositiveUintDenotes(more, wide, below, s);
    AbutOrdered(wide, more + 2, Pow(more + 1), below);
    PowPositive(more + 1);
    if s == "0" {
      LeadingZero(s);
    } else if Canonical(s) {
      LeadingDigit(s);
      PowPositive(|s| - 1);
    }
  }

  /** `_LINEAGE_UINT_PATTERN`, after its `0` and `[1-9][0-9]{0,17}`. */
  const LINEAGE: seq<Piece> := [
    Piece(0, 1, 8, 18),
    Piece(9, 0, 1, 17),
    Piece(92, 0, 1, 16),
    Piece(922, 0, 2, 15),
    Piece(9223, 0, 2, 14),
    Piece(92233, 0, 6, 13),
    Piece(922337, 0, 1, 12),
    Piece(92233720, 0, 2, 10),
    Piece(922337203, 0, 5, 9),
    Piece(9223372036, 0, 7, 8),
    Piece(92233720368, 0, 4, 7),
    Piece(922337203685, 0, 3, 6),
    Piece(9223372036854, 0, 6, 5),
    Piece(92233720368547, 0, 6, 4),
    Piece(922337203685477, 0, 4, 3),
    Piece(9223372036854775, 0, 7, 2),
    Piece(922337203685477580, 0, 6, 0),
    Piece(922337203685477580, 7, 7, 0)
  ]

  /** `uint53_decimal`, after its `0` and `[1-9][0-9]{0,14}`. */
  const UINT53: seq<Piece> := [
    Piece(0, 1, 8, 15),
    Piece(900, 0, 6, 12),
    Piece(9007, 0, 0, 11),
    Piece(90071, 0, 8, 10),
    Piece(900719, 0, 8, 9),
    Piece(9007199, 0, 1, 8),
    Piece(90071992, 0, 4, 7),
    Piece(900719925, 0, 3, 6),
    Piece(9007199254, 0, 6, 5),
    Piece(90071992547, 0, 3, 4),
    Piece(9007199254740, 0, 8, 2),
    Piece(90071992547409, 0, 8, 1),
    Piece(900719925474099, 0, 0, 0),
    Piece(900719925474099, 1, 1, 0)
  ]

  const LINEAGE_UINT := Uint(17, LINEAGE)

  /** The text replacement of `(?:0|` by `(?:` drops the alternative `0`. */
  const LINEAGE_POSITIVE_UINT := PositiveUint(17, LINEAGE)

  const UINT53_DECIMAL := Uint(14, UINT53)

  lemma {:induction false} Powers()
    ensures Pow(0) == 1
    ensures Pow(1) == 10
    ensures Pow(2) == 100
    ensures Pow(3) == 1000
    ensures Pow(4) == 10000
    ensures Pow(5) == 100000
    ensures Pow(6) == 1000000
    ensures Pow(7) == 10000000
    ensures Pow(8) == 100000000
    ensures Pow(9) == 1000000000
    ensures Pow(10) == 10000000000
    ensures Pow(11) == 100000000000
    ensures Pow(12) == 1000000000000
    ensures Pow(13) == 10000000000000
    ensures Pow(14) == 100000000000000
    ensures Pow(15) == 1000000000000000
    ensures Pow(16) == 10000000000000000
    ensures Pow(17) == 100000000000000000
    ensures Pow(18) == 1000000000000000000
    ensures Pow(19) == 10000000000000000000
  {
  }

  lemma {:induction false} AbutFrom(ps: seq<Piece>, i: nat, width: nat, below: nat)
    requires i < |ps|
    requires forall j :: 0 <= j < |ps| ==> ps[j].Wide(width) && ps[j].High() <= Pow(width)
    requires forall j :: 0 < j < |ps| ==> ps[j].Low() == ps[j - 1].High()
    requires ps[|ps| - 1].High() == below
    ensures Abut(ps[i..], width, ps[i].Low(), below)
    decreases |ps| - i
  {
    assert ps[i..][1..] == ps[i + 1..];
    if i + 1 < |ps| {
      AbutFrom(ps, i + 1, width, below);
    }
  }

  lemma {:induction false} LineageLower()
    ensures LINEAGE[0].Wide(19) && LINEAGE[0].Low() == 1000000000000000000 && LINEAGE[0].High() == 9000000000000000000
    ensures LINEAGE[1].Wide(19) && LINEAGE[1].Low() == 9000000000000000000 && LINEAGE[1].High() == 9200000000000000000
    ensures LINEAGE[2].Wide(19) && LINEAGE[2].Low() == 9200000000000000000 && LINEAGE[2].High() == 9220000000000000000
    ensures LINEAGE[3].Wide(19) && LINEAGE[3].Low() == 9220000000000000000 && LINEAGE[3].High() == 9223000000000000000
    ensures LINEAGE[4].Wide(19) && LINEAGE[4].Low() == 9223000000000000000 && LINEAGE[4].High() == 9223300000000000000
    ensures LINEAGE[5].Wide(19) && LINEAGE[5].Low() == 9223300000000000000 && LINEAGE[5].High() == 9223370000000000000
    ensures LINEAGE[6].Wide(19) && LINEAGE[6].Low() == 9223370000000000000 && LINEAGE[6].High() == 9223372000000000000
    ensures LINEAGE[7].Wide(19) && LINEAGE[7].Low() == 9223372000000000000 && LINEAGE[7].High() == 9223372030000000000
    ensures LINEAGE[8].Wide(19) && LINEAGE[8].Low() == 9223372030000000000 && LINEAGE[8].High() == 9223372036000000000
  {
    hide Pow;
    Powers();
  }

  lemma {:induction false} LineageUpper()
    ensures LINEAGE[9].Wide(19) && LINEAGE[9].Low() == 9223372036000000000 && LINEAGE[9].High() == 9223372036800000000
    ensures LINEAGE[10].Wide(19) && LINEAGE[10].Low() == 9223372036800000000
          && LINEAGE[10].High() == 9223372036850000000
    ensures LINEAGE[11].Wide(19) && LINEAGE[11].Low() == 9223372036850000000
          && LINEAGE[11].High() == 9223372036854000000
    ensures LINEAGE[12].Wide(19) && LINEAGE[12].Low() == 9223372036854000000
          && LINEAGE[12].High() == 9223372036854700000
    ensures LINEAGE[13].Wide(19) && LINEAGE[13].Low() == 9223372036854700000
          && LINEAGE[13].High() == 9223372036854770000
    ensures LINEAGE[14].Wide(19) && LINEAGE[14].Low() == 9223372036854770000
          && LINEAGE[14].High() == 9223372036854775000
    ensures LINEAGE[15].Wide(19) && LINEAGE[15].Low() == 9223372036854775000
          && LINEAGE[15].High() == 9223372036854775800
    ensures LINEAGE[16].Wide(19) && LINEAGE[16].Low() == 9223372036854775800
          && LINEAGE[16].High() == 9223372036854775807
    ensures LINEAGE[17].Wide(19) && LINEAGE[17].Low() == 9223372036854775807
          && LINEAGE[17].High() == 9223372036854775808
  {
    hide Pow;
    Powers();
  }

  lemma {:induction false} LineageAbut()
    ensures Abut(LINEAGE, 19, Pow(18), 9223372036854775808)
  {
    hide Pow, Abut, Piece.Low, Piece.High, Piece.Wide;
    Powers();
    LineageLower();
    LineageUpper();
    AbutFrom(LINEAGE, 0, 19, 9223372036854775808);
    assert LINEAGE[0..] == LINEAGE;
  }

  lemma {:induction false} Uint53Lower()
    ensures UINT53[0].Wide(16) && UINT53[0].Low() == 1000000000000000 && UINT53[0].High() == 9000000000000000
    ensures UINT53[1].Wide(16) && UINT53[1].Low() == 9000000000000000 && UINT53[1].High() == 9007000000000000
    ensures UINT53[2].Wide(16) && UINT53[2].Low() == 9007000000000000 && UINT53[2].High() == 9007100000000000
    ensures UINT53[3].Wide(16) && UINT53[3].Low() == 9007100000000000 && UINT53[3].High() == 9007190000000000
    ensures UINT53[4].Wide(16) && UINT53[4].Low() == 9007190000000000 && UINT53[4].High() == 9007199000000000
    ensures UINT53[5].Wide(16) && UINT53[5].Low() == 9007199000000000 && UINT53[5].High() == 9007199200000000
    ensures UINT53[6].Wide(16) && UINT53[6].Low() == 9007199200000000 && UINT53[6].High() == 9007199250000000
  {
    hide Pow;
    Powers();
  }

  lemma {:induction false} Uint53Upper()
    ensures UINT53[7].Wide(16) && UINT53[7].Low() == 9007199250000000 && UINT53[7].High() == 9007199254000000
    ensures UINT53[8].Wide(16) && UINT53[8].Low() == 9007199254000000 && UINT53[8].High() == 9007199254700000
    ensures UINT53[9].Wide(16) && UINT53[9].Low() == 9007199254700000 && UINT53[9].High() == 9007199254740000
    ensures UINT53[10].Wide(16) && UINT53[10].Low() == 9007199254740000 && UINT53[10].High() == 9007199254740900
    ensures UINT53[11].Wide(16) && UINT53[11].Low() == 9007199254740900 && UINT53[11].High() == 9007199254740990
    ensures UINT53[12].Wide(16) && UINT53[12].Low() == 9007199254740990 && UINT53[12].High() == 9007199254740991
    ensures UINT53[13].Wide(16) && UINT53[13].Low() == 9007199254740991 && UINT53[13].High() == 9007199254740992
  {
    hide Pow;
    Powers();
  }

  lemma {:induction false} Uint53Abut()
    ensures Abut(UINT53, 16, Pow(15), 9007199254740992)
  {
    hide Pow, Abut, Piece.Low, Piece.High, Piece.Wide;
    Powers();
    Uint53Lower();
    Uint53Upper();
    AbutFrom(UINT53, 0, 16, 9007199254740992);
    assert UINT53[0..] == UINT53;
  }

  // ----- the main results

  /** The lineage pattern accepts exactly the canonical numerals of 0 to 2^63 - 1. */
  lemma {:induction false} LineageUintExact(s: string)
    ensures Matches(LINEAGE_UINT, s) <==> Canonical(s) && Value(s) <= 9223372036854775807
    ensures Matches(LINEAGE_UINT, s) ==> Decimal(Value(s)) == s
  {
    LineageAbut();
    UintDenotes(17, LINEAGE, 9223372036854775808, s);
    if Canonical(s) { CanonicalIsDecimal(s); }
  }

  lemma {:induction false} LineagePositiveUintExact(s: string)
    ensures Matches(LINEAGE_POSITIVE_UINT, s) <==> Canonical(s) && 1 <= Value(s) <= 9223372036854775807
    ensures Matches(LINEAGE_POSITIVE_UINT, s) ==> Decimal(Value(s)) == s
  {
    LineageAbut();
    PositiveUintDenotes(17, LINEAGE, 9223372036854775808, s);
    if Canonical(s) { CanonicalIsDecimal(s); }
  }

  /** The token counts are exactly 0 to 2^53 - 1, and the `maxLength` beside the pattern never adds anything. */
  lemma {:induction false} Uint53Exact(s: string)
    ensures Matches(UINT53_DECIMAL, s) <==> Canonical(s) && Value(s) <= 9007199254740991
    ensures Matches(UINT53_DECIMAL, s) ==> |s| <= 16 && Decimal(Value(s)) == s
  {
    Uint53Abut();
    UintDenotes(14, UINT53, 9007199254740992, s);
    if Canonical(s) {
      CanonicalIsDecimal(s);
      if |s| > 16 {
        LeadingDigit(s);
        PowGrows(16, |s| - 1);
      }
    }
  }

  /** Every number in range is written in exactly one accepted way. */
  lemma {:induction false} NumbersAccepted(n: nat)
    ensures Matches(LINEAGE_UINT, Decimal(n)) <==> n <= 9223372036854775807
    ensures Matches(LINEAGE_POSITIVE_UINT, Decimal(n)) <==> 1 <= n <= 9223372036854775807
    ensures Matches(UINT53_DECIMAL, Decimal(n)) <==> n <= 9007199254740991
  {
    DecimalIsCanonical(n);
    LineageUintExact(Decimal(n));
    LineagePositiveUintExact(Decimal(n));
    Uint53Exact(Decimal(n));
  }
}
