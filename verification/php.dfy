/**
 * The slice of PHP's value semantics the SDK relies on: scalar values, the
 * truthiness as judged by `!` and `empty`, the `(bool)`, `(int)` and string
 * conversions, `strtoupper`, and `implode` (with `explode` as its inverse).
 */
module Php {
  import opened Base

  /** A PHP scalar as it reaches the SDK from configuration, entities or decoded JSON. */
  datatype Value = Null | Str(s: string) | Int(i: int) | Bool(b: bool)

  /** Truthiness: `null`, `""`, `"0"`, `0` and `false` are falsy, everything else is truthy. */
  predicate Truthy(v: Value)
  {
    match v
    case Null => false
    case Str(s) => s != "" && s != "0"
    case Int(i) => i != 0
    case Bool(b) => b
  }

  /** The `(bool)` cast. */
  function BoolCast(v: Value): (r: Value)
    ensures r.Bool?
    ensures r.b <==> Truthy(v)
    ensures Truthy(r) <==> Truthy(v)
  {
    Bool(Truthy(v))
  }

  // ---------------------------------------------------------------------------
  // Decimal digits

  predicate IsDigit(c: char) { '0' <= c <= '9' }

  predicate AllDigits(s: string) { forall i | 0 <= i < |s| :: IsDigit(s[i]) }

  function DigitChar(d: nat): (c: char)
    requires d < 10
    ensures IsDigit(c)
  {
    ('0' as int + d) as char
  }

  function DigitValue(c: char): (d: nat)
    requires IsDigit(c)
    ensures d < 10
  {
    c as int - '0' as int
  }

  /** The decimal numeral of `n`, most significant digit first, no leading zeros. */
  function NatToDecimal(n: nat): (r: string)
    ensures |r| >= 1 && AllDigits(r)
    ensures r == "0" <==> n == 0
    decreases n
  {
    if n < 10 then [DigitChar(n)] else NatToDecimal(n / 10) + [DigitChar(n % 10)]
  }

  /** The number a string of decimal digits denotes. */
  function DigitsValue(ds: string): nat
    requires AllDigits(ds)
    decreases |ds|
  {
    if |ds| == 0 then 0 else DigitsValue(ds[..|ds| - 1]) * 10 + DigitValue(ds[|ds| - 1])
  }

  /** PHP's rendering of an integer: an optional minus sign, then the numeral. */
  function IntToDecimal(i: int): string
  {
    if i < 0 then "-" + NatToDecimal(-i) else NatToDecimal(i)
  }

  // ---------------------------------------------------------------------------
  // Conversions

  /** String conversion, as done by `.`, `sprintf('%s')` and string interpolation. */
  function ToText(v: Value): string
  {
    match v
    case Null => ""
    case Str(s) => s
    case Int(i) => IntToDecimal(i)
    case Bool(b) => if b then "1" else ""
  }

  /**
   * Passing `v` to a parameter declared `string` (coercive typing): scalars
   * are converted, `null` raises a TypeError (None).
   */
  function StringParam(v: Value): (r: Option<string>)
    ensures r.None? <==> v.Null?
    ensures r.Some? ==> r.value == ToText(v)
  {
    if v.Null? then None else Some(ToText(v))
  }

  predicate IsSpace(c: char)
  {
    c == ' ' || c == '\t' || c == '\n' || c == '\r' || c == '\U{000B}' || c == '\U{000C}'
  }

  function SkipSpace(s: string): (t: string)
    ensures |t| <= |s| && t == s[|s| - |t|..]
    ensures |t| > 0 ==> !IsSpace(t[0])
    decreases |s|
  {
    if |s| > 0 && IsSpace(s[0]) then SkipSpace(s[1..]) else s
  }

  /** The longest prefix of `s` made of decimal digits. */
  function LeadingDigits(s: string): (r: string)
    ensures AllDigits(r)
    ensures |r| <= |s| && r == s[..|r|]
    ensures |r| < |s| ==> !IsDigit(s[|r|])
    decreases |s|
  {
    if |s| == 0 || !IsDigit(s[0]) then [] else [s[0]] + LeadingDigits(s[1..])
  }

  /**
   * `(int)` of a string: leading whitespace is skipped, then an optional sign
   * and the longest run of digits are read; anything after them is ignored.
   */
  function StrToInt(s: string): int
  {
    var t := SkipSpace(s);
    if |t| > 0 && t[0] == '-' then 0 - DigitsValue(LeadingDigits(t[1..]))
    else if |t| > 0 && t[0] == '+' then DigitsValue(LeadingDigits(t[1..]))
    else DigitsValue(LeadingDigits(t))
  }

  /** The `(int)` cast. */
  function IntCast(v: Value): int
  {
    match v
    case Null => 0
    case Str(s) => StrToInt(s)
    case Int(i) => i
    case Bool(b) => if b then 1 else 0
  }

  // ---------------------------------------------------------------------------
  // strtoupper

  function UpperChar(c: char): char
  {
    if 'a' <= c <= 'z' then (c as int - 32) as char else c
  }

  /** `strtoupper`: ASCII lower-case letters become upper-case, every other character is kept. */
  function StrToUpper(s: string): (r: string)
    ensures |r| == |s|
    ensures forall i | 0 <= i < |s| :: r[i] == UpperChar(s[i])
    ensures forall i | 0 <= i < |r| :: !('a' <= r[i] <= 'z')
    decreases |s|
  {
    if |s| == 0 then "" else [UpperChar(s[0])] + StrToUpper(s[1..])
  }

  // ---------------------------------------------------------------------------
  // implode / explode

  /** `implode(glue, pieces)`: the pieces in order with `glue` between neighbours. */
  function Implode(glue: string, pieces: seq<string>): string
    decreases |pieces|
  {
    if |pieces| == 0 then ""
    else if |pieces| == 1 then pieces[0]
    else Implode(glue, pieces[..|pieces| - 1]) + glue + pieces[|pieces| - 1]
  }

  lemma ImplodeTwo(glue: string, a: string, b: string)
    ensures Implode(glue, [a, b]) == a + glue + b
  {
    assert [a, b][..1] == [a];
  }

  /** `explode(delim, s)` for a one-character delimiter: the maximal delimiter-free runs of `s`. */
  function Explode(delim: char, s: string): (r: seq<string>)
    ensures |r| >= 1
    decreases |s|
  {
    if |s| == 0 then [""]
    else
      var init := Explode(delim, s[..|s| - 1]);
      if s[|s| - 1] == delim then init + [""]
      else init[..|init| - 1] + [init[|init| - 1] + [s[|s| - 1]]]
  }

  // ---------------------------------------------------------------------------
  // Lemmas

  /** Converting a value to a string keeps its truthiness. */
  lemma TextKeepsTruthiness(v: Value)
    ensures Truthy(Str(ToText(v))) <==> Truthy(v)
  {
    match v
    case Int(i) =>
      if i < 0 {
        assert ToText(v)[0] == '-';
      }
    case _ =>
  }

  lemma {:induction false} LeadingDigitsOfDigits(s: string)
    requires AllDigits(s)
    ensures LeadingDigits(s) == s
    decreases |s|
  {
    if |s| > 0 {
      LeadingDigitsOfDigits(s[1..]);
      assert s == [s[0]] + s[1..];
    }
  }

  lemma {:induction false} DigitsValueOfDecimal(n: nat)
    ensures DigitsValue(NatToDecimal(n)) == n
    decreases n
  {
    if n >= 10 {
      var d := NatToDecimal(n);
      DigitsValueOfDecimal(n / 10);
      assert d[..|d| - 1] == NatToDecimal(n / 10);
    }
  }

  /** `(int)` of an integer's decimal rendering gives back the integer. */
  lemma IntCastOfDecimal(i: int)
    ensures StrToInt(IntToDecimal(i)) == i
  {
    var n: nat := if i < 0 then -i else i;
    var d := NatToDecimal(n);
    var t := IntToDecimal(i);
    assert SkipSpace(t) == t by {
      assert t[0] == '-' || IsDigit(t[0]);
    }
    LeadingDigitsOfDigits(d);
    DigitsValueOfDecimal(n);
    if i < 0 {
      assert t[0] == '-' && t[1..] == d;
    } else {
      assert t == d && t[0] != '-' && t[0] != '+';
    }
  }

  /** `(int)` agrees with `(int)` applied to the value's string form. */
  lemma IntCastOfText(v: Value)
    ensures IntCast(Str(ToText(v))) == IntCast(v)
  {
    match v
    case Null => IntCastOfEmpty();
    case Str(_) =>
    case Int(i) => IntCastOfDecimal(i);
    case Bool(b) =>
      if b {
        IntCastOfDecimal(1);
      } else {
        IntCastOfEmpty();
      }
  }

  lemma IntCastOfEmpty()
    ensures StrToInt("") == 0
  {
    assert SkipSpace("") == "";
    assert LeadingDigits("") == "";
  }

  lemma UpperCharIdempotent(c: char)
    ensures UpperChar(UpperChar(c)) == UpperChar(c)
  {
  }

  /** `strtoupper` is idempotent. */
  lemma StrToUpperIdempotent(s: string)
    ensures StrToUpper(StrToUpper(s)) == StrToUpper(s)
  {
    var u := StrToUpper(s);
    forall i | 0 <= i < |u|
      ensures StrToUpper(u)[i] == u[i]
    {
      UpperCharIdempotent(s[i]);
    }
  }

  lemma {:induction false} ExplodeWithoutDelimiter(delim: char, p: string)
    requires delim !in p
    ensures Explode(delim, p) == [p]
    decreases |p|
  {
    if |p| > 0 {
      ExplodeWithoutDelimiter(delim, p[..|p| - 1]);
      assert p[..|p| - 1] + [p[|p| - 1]] == p;
    }
  }

  lemma {:induction false} ExplodeAfterDelimiter(delim: char, a: string, p: string)
    requires delim !in p
    ensures Explode(delim, a + [delim] + p) == Explode(delim, a) + [p]
    decreases |p|
  {
    var s := a + [delim] + p;
    if |p| == 0 {
      assert s[..|s| - 1] == a;
    } else {
      var q := p[..|p| - 1];
      assert s[..|s| - 1] == a + [delim] + q;
      ExplodeAfterDelimiter(delim, a, q);
      assert q + [p[|p| - 1]] == p;
    }
  }

  /**
   * Round trip: when no piece contains the delimiter, exploding the imploded
   * pieces gives back exactly the pieces, in order.
   */
  lemma {:induction false} ExplodeImplode(delim: char, pieces: seq<string>)
    requires |pieces| >= 1
    requires forall i | 0 <= i < |pieces| :: delim !in pieces[i]
    ensures Explode(delim, Implode([delim], pieces)) == pieces
    decreases |pieces|
  {
    if |pieces| == 1 {
      ExplodeWithoutDelimiter(delim, pieces[0]);
    } else {
      var init := pieces[..|pieces| - 1];
      ExplodeImplode(delim, init);
      ExplodeAfterDelimiter(delim, Implode([delim], init), pieces[|pieces| - 1]);
      assert init + [pieces[|pieces| - 1]] == pieces;
    }
  }

  /** `explode` of four delimiter-free fields joined by the delimiter gives back the fields. */
  lemma ExplodeFour(delim: char, a: string, b: string, c: string, d: string)
    requires delim !in a && delim !in b && delim !in c && delim !in d
    ensures Explode(delim, a + [delim] + b + [delim] + c + [delim] + d) == [a, b, c, d]
  {
    ExplodeWithoutDelimiter(delim, a);
    ExplodeAfterDelimiter(delim, a, b);
    ExplodeAfterDelimiter(delim, a + [delim] + b, c);
    ExplodeAfterDelimiter(delim, a + [delim] + b + [delim] + c, d);
  }

  /** Every occurrence of the delimiter starts a new piece. */
  lemma {:induction false} ExplodeLength(delim: char, s: string)
    ensures |Explode(delim, s)| == multiset(s)[delim] + 1
    decreases |s|
  {
    if |s| > 0 {
      ExplodeLength(delim, s[..|s| - 1]);
      assert s == s[..|s| - 1] + [s[|s| - 1]];
    }
  }

  /** Imploding n delimiter-free pieces with a one-character glue puts n - 1 delimiters in. */
  lemma ImplodeSeparatorCount(delim: char, pieces: seq<string>)
    requires |pieces| >= 1
    requires forall i | 0 <= i < |pieces| :: delim !in pieces[i]
    ensures multiset(Implode([delim], pieces))[delim] == |pieces| - 1
  {
    ExplodeImplode(delim, pieces);
    ExplodeLength(delim, Implode([delim], pieces));
  }
}
