/** The string keys "x:y" under which positions are stored in maps and sets,
    and their parser. Coordinates are written in decimal, negatives with a leading '-'. */
module PositionKey {
  import opened Types

  const Separator: char := ':'

  predicate IsDigit(c: char) {
    '0' <= c <= '9'
  }

  predicate AllDigits(s: string) {
    forall i :: 0 <= i < |s| ==> IsDigit(s[i])
  }

  function DigitChar(d: nat): (c: char)
    requires d < 10
    ensures IsDigit(c) && (c as int) - ('0' as int) == d
  {
    (('0' as int) + d) as char
  }

  /** Decimal digits of a natural number, without leading zeros. Its shape is stated by
      NatTextDigits rather than in a postcondition, so that keys stay cheap to reason about. */
  function NatText(n: nat): string
    decreases n
  {
    if n < 10 then [DigitChar(n)] else NatText(n / 10) + [DigitChar(n % 10)]
  }

  /** The text a template literal produces for an integer. */
  function IntText(i: int): string {
    if i < 0 then "-" + NatText(-i) else NatText(i)
  }

  lemma {:induction false} NatTextDigits(n: nat)
    ensures |NatText(n)| > 0 && AllDigits(NatText(n))
    decreases n
  {
    if n >= 10 {
      NatTextDigits(n / 10);
    }
  }

  /** The text of an integer is never empty and never holds the separator. */
  lemma IntTextShape(i: int)
    ensures |IntText(i)| > 0 && Separator !in IntText(i)
  {
    if i < 0 {
      NatTextDigits(-i);
      assert IntText(i)[1..] == NatText(-i);
    } else {
      NatTextDigits(i);
    }
  }

  /** The value of a string of decimal digits (leading zeros allowed). */
  function DigitsValue(s: string): nat
    requires AllDigits(s)
  {
    if s == [] then 0
    else DigitsValue(s[..|s| - 1]) * 10 + ((s[|s| - 1] as int) - ('0' as int))
  }

  /** The integer a decimal text denotes, if it is an optionally negated run of digits. */
  function ParseInt(s: string): Option<int> {
    if |s| > 1 && s[0] == '-' && AllDigits(s[1..]) then Some(0 - DigitsValue(s[1..]) as int)
    else if |s| > 0 && AllDigits(s) then Some(DigitsValue(s))
    else None
  }

  /** The characters of `s` before its first separator (all of `s` when it has none). */
  function FieldBefore(s: string): (f: string)
    ensures |f| <= |s| && f == s[..|f|] && Separator !in f
    ensures |f| < |s| ==> s[|f|] == Separator
  {
    if s == [] || s[0] == Separator then [] else [s[0]] + FieldBefore(s[1..])
  }

  /** positionKey.get: never the empty string, which the source would treat as "no key"; ParseGet
      proves it decodes back to `p`. */
  function Get(p: Position): (key: string)
    ensures |key| > 0
  {
    IntText(p.x) + [Separator] + IntText(p.y)
  }

  /** positionKey.parse: the first two separator-delimited fields as integers; None where the
      source would produce a non-number. */
  function Parse(key: string): (r: Option<Position>)
    ensures Separator !in key ==> r.None?
    ensures r.Some? ==> |key| >= 3 && key[0] != Separator
  {
    var xText := FieldBefore(key);
    if |xText| == |key| then None
    else
      var yText := FieldBefore(key[|xText| + 1..]);
      match (ParseInt(xText), ParseInt(yText))
      case (Some(x), Some(y)) => Some(Position(x, y))
      case _ => None
  }

  lemma {:induction false} DigitsValueOfNatText(n: nat)
    ensures AllDigits(NatText(n)) && DigitsValue(NatText(n)) == n
    decreases n
  {
    var s := NatText(n);
    NatTextDigits(n);
    if n >= 10 {
      DigitsValueOfNatText(n / 10);
      assert s[..|s| - 1] == NatText(n / 10);
    }
  }

  lemma ParseNatText(n: nat)
    ensures ParseInt(NatText(n)) == Some(n)
  {
    var s := NatText(n);
    DigitsValueOfNatText(n);
    NatTextDigits(n);
    assert IsDigit(s[0]) && s[0] != '-';
  }

  lemma ParseNegativeText(n: nat)
    ensures ParseInt("-" + NatText(n)) == Some(0 - n)
  {
    var s := "-" + NatText(n);
    DigitsValueOfNatText(n);
    NatTextDigits(n);
    assert s[1..] == NatText(n);
    assert |s| > 1 && s[0] == '-' && AllDigits(s[1..]);
  }

  lemma ParseIntText(i: int)
    ensures ParseInt(IntText(i)) == Some(i)
  {
    if i < 0 {
      ParseNegativeText(-i);
    } else {
      ParseNatText(i);
    }
  }

  lemma {:induction false} FieldBeforeOf(a: string, b: string)
    requires Separator !in a
    ensures FieldBefore(a + b) == (if b == [] || b[0] == Separator then a else a + FieldBefore(b))
  {
    if a != [] {
      assert (a + b)[1..] == a[1..] + b;
      FieldBeforeOf(a[1..], b);
    } else {
      assert a + b == b;
    }
  }

  /** Decoding an encoded position gives the position back, for every integer position. */
  lemma ParseGet(p: Position)
    ensures Parse(Get(p)) == Some(p)
  {
    var xs, ys := IntText(p.x), IntText(p.y);
    IntTextShape(p.x);
    IntTextShape(p.y);
    var key := Get(p);
    assert key == xs + ([Separator] + ys);
    FieldBeforeOf(xs, [Separator] + ys);
    assert FieldBefore(key) == xs;
    assert key[|xs| + 1..] == ys;
    FieldBeforeOf(ys, []);
    assert ys + [] == ys;
    ParseIntText(p.x);
    ParseIntText(p.y);
  }

  /** Distinct positions have distinct keys. */
  lemma GetInjective(p: Position, q: Position)
    ensures Get(p) == Get(q) <==> p == q
  {
    ParseGet(p);
    ParseGet(q);
  }

  lemma GetInjectiveAll()
    ensures forall p: Position, q: Position {:trigger Get(p), Get(q)} :: Get(p) == Get(q) ==> p == q
  {
    forall p: Position, q: Position | Get(p) == Get(q) ensures p == q {
      GetInjective(p, q);
    }
  }

  lemma GetExample()
    ensures Get(Position(6, 2)) == "6:2"
  {
  }
}
