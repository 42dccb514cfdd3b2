// How SQLite stores and compares the JavaScript values the routes bind. The
// driver binds a string as TEXT, a 32-bit number as INTEGER and any other number
// as REAL, a boolean as 1 or 0, null and undefined as NULL, and an array or
// object as the TEXT of its String(). The column's declared type then applies
// its affinity: INTEGER columns read a numeric text as a number, DATE and TIME
// columns (NUMERIC affinity) likewise, and TEXT columns turn numbers into text.
// Stored or bound, values compare as NULL, then numbers by value, then text in
// BINARY collation.

module Sql {
  import opened Optional
  import opened Text
  import opened Js
  import opened Ordering

  /** A value as SQLite compares it. A number is kept as the numeral it was read
      from, so that REAL values such as `2024.5` are represented too. */
  datatype SqlValue = SqlNull | SqlNumber(n: Numeral) | SqlText(t: string)

  /** The numeral of an integer. */
  function IntNumeral(n: int): Numeral
  {
    Numeral(n < 0, if n < 0 then -n else n, 0)
  }

  /** A numeral's value is Numerator / Denominator. */
  function Numerator(n: Numeral): int
  {
    var k := if n.scale >= 0 then n.mantissa * Pow10(n.scale) else n.mantissa;
    if n.negative then -k else k
  }

  function Denominator(n: Numeral): (d: nat)
    ensures d >= 1
  {
    if n.scale >= 0 then 1 else Pow10(-n.scale)
  }

  /** Numbers compare by value (so `5`, `5.0` and `50e-1` are equal). */
  predicate NumeralLe(a: Numeral, b: Numeral)
  {
    Numerator(a) * Denominator(b) <= Numerator(b) * Denominator(a)
  }

  lemma MulRight(x: int, y: int, c: int)
    requires x <= y && c > 0
    ensures x * c <= y * c
  {
    assert (y - x) * c >= 0;
  }

  /** Comparing fractions by cross-multiplication is transitive. */
  lemma CrossTransitive(x: int, p: int, y: int, q: int, z: int, r: int)
    requires p > 0 && q > 0 && r > 0
    requires x * q <= y * p && y * r <= z * q
    ensures x * r <= z * p
  {
    MulRight(x * q, y * p, r);
    MulRight(y * r, z * q, p);
    assert (x * r) * q <= (z * p) * q by {
      assert (x * r) * q == (x * q) * r && (y * p) * r == (y * r) * p && (z * q) * p == (z * p) * q;
    }
    if x * r > z * p {
      MulRight(z * p + 1, x * r, q);
    }
  }

  lemma NumeralLeTransitive(a: Numeral, b: Numeral, c: Numeral)
    requires NumeralLe(a, b) && NumeralLe(b, c)
    ensures NumeralLe(a, c)
  {
    CrossTransitive(Numerator(a), Denominator(a), Numerator(b), Denominator(b), Numerator(c), Denominator(c));
  }

  /** The storage class, in the order SQLite sorts them. */
  function Rank(v: SqlValue): nat
  {
    match v
    case SqlNull => 0
    case SqlNumber(_) => 1
    case SqlText(_) => 2
  }

  /** `a <= b` in ORDER BY: NULL first, then numbers by value, then text in
      BINARY collation. */
  predicate Le(a: SqlValue, b: SqlValue)
  {
    if Rank(a) != Rank(b) then Rank(a) < Rank(b)
    else if a.SqlNumber? then NumeralLe(a.n, b.n)
    else if a.SqlText? then LexLe(a.t, b.t)
    else true
  }

  lemma LeTransitive(a: SqlValue, b: SqlValue, c: SqlValue)
    requires Le(a, b) && Le(b, c)
    ensures Le(a, c)
  {
    if Rank(a) == Rank(b) == Rank(c) == 1 {
      NumeralLeTransitive(a.n, b.n, c.n);
    } else if Rank(a) == Rank(b) == Rank(c) == 2 {
      LexLeTransitive(a.t, b.t, c.t);
    }
  }

  lemma LeTotalPreorder()
    ensures TotalPreorder(Le)
  {
    forall a, b ensures Le(a, b) || Le(b, a) {
      if Rank(a) == Rank(b) == 2 {
        LexLeTotal(a.t, b.t);
      }
    }
    forall a, b, c | Le(a, b) && Le(b, c) ensures Le(a, c) {
      LeTransitive(a, b, c);
    }
  }

  /** Two texts are ordered by Le exactly as BINARY collation orders them. */
  lemma LeOnText(a: string, b: string)
    ensures Le(SqlText(a), SqlText(b)) <==> LexLe(a, b)
  {
  }

  /** `a = b` in a WHERE clause: NULL equals nothing; otherwise neither sorts
      before the other. */
  predicate Equal(a: SqlValue, b: SqlValue)
  {
    !a.SqlNull? && !b.SqlNull? && Le(a, b) && Le(b, a)
  }

  /** `a >= b` in a WHERE clause: NULL compares with nothing. */
  predicate AtLeast(a: SqlValue, b: SqlValue)
  {
    !a.SqlNull? && !b.SqlNull? && Le(b, a)
  }

  /** Two texts are equal in a WHERE clause exactly when they are the same text,
      and a number never equals a text. */
  lemma EqualOnText(a: string, b: string, n: Numeral)
    ensures Equal(SqlText(a), SqlText(b)) <==> a == b
    ensures !Equal(SqlNumber(n), SqlText(b)) && !AtLeast(SqlNumber(n), SqlText(b))
  {
    LexLeTotal(a, a);
    if LexLe(a, b) && LexLe(b, a) {
      LexLeAntisymmetric(a, b);
    }
  }

  /** A value equal to one value is at least every value that sorts before it. */
  lemma EqualIsAtLeast(v: SqlValue, t: SqlValue, u: SqlValue)
    requires Equal(v, t) && Le(u, t) && !u.SqlNull?
    ensures AtLeast(v, u)
  {
    LeTransitive(u, t, v);
  }

  // Numeric affinity: a text compared with an INTEGER column is read as a number
  // when the whole text, apart from white space around it, is a numeric literal.

  /** The white space SQLite skips around a number: space, tab, line feed,
      vertical tab, form feed and carriage return. */
  predicate IsSqlSpace(c: char)
  {
    c == ' ' || c == '\t' || c == '\n' || c == '\U{000B}' || c == '\U{000C}' || c == '\r'
  }

  function SkipLeadingSpaces(s: string): (r: string)
  {
    if s != [] && IsSqlSpace(s[0]) then SkipLeadingSpaces(s[1..]) else s
  }

  function SkipTrailingSpaces(s: string): (r: string)
  {
    if s != [] && IsSqlSpace(s[|s| - 1]) then SkipTrailingSpaces(s[..|s| - 1]) else s
  }

  /** A numeric literal: its sign, its digits read as one integer (the fractional
      ones included), and the power of ten that scales them. */
  datatype Numeral = Numeral(negative: bool, mantissa: nat, scale: int)

  /** The exponent clause after the digits: nothing is 0; otherwise `e` or `E`,
      an optional sign and at least one digit. */
  function Exponent(t: string): (r: Option<int>)
    ensures t == [] ==> r == Some(0)
  {
    if t == [] then Some(0)
    else if t[0] != 'e' && t[0] != 'E' then None
    else
      var w := t[1..];
      var digits := if w != [] && (w[0] == '+' || w[0] == '-') then w[1..] else w;
      if !IsDecimal(digits) then None
      else if w[0] == '-' then Some(-(DecimalValue(digits) as int))
      else Some(DecimalValue(digits))
  }

  /** The digits before and after the point, then the exponent clause; at least
      one digit in all. */
  function Finish(whole: string, fraction: string, tail: string): (r: Option<Numeral>)
    requires AllDigits(whole + fraction)
    ensures r.Some? ==> !r.value.negative
  {
    if whole + fraction == [] then None
    else
      match Exponent(tail)
      case None => None
      case Some(e) => Some(Numeral(false, DecimalValue(whole + fraction), e - |fraction|))
  }

  /** After the integer digits: an optional point with its digits, then the rest. */
  function AfterWhole(whole: string, rest: string): (r: Option<Numeral>)
    requires AllDigits(whole)
    ensures r.Some? ==> !r.value.negative
  {
    if rest != [] && rest[0] == '.' then
      var f := rest[1..];
      var k := DigitRun(f);
      assert AllDigits(whole + f[..k]);
      Finish(whole, f[..k], f[k..])
    else
      assert whole + [] == whole;
      Finish(whole, [], rest)
  }

  /** A numeric literal without a sign. */
  function ReadUnsigned(u: string): (r: Option<Numeral>)
    ensures r.Some? ==> !r.value.negative
  {
    AfterWhole(u[..DigitRun(u)], u[DigitRun(u)..])
  }

  /** sqlite3AtoF on a text without surrounding space: an optional sign, then the
      unsigned literal, and nothing after it. */
  function ReadNumeral(t: string): (r: Option<Numeral>)
  {
    if t != [] && (t[0] == '+' || t[0] == '-') then WithSign(t[0] == '-', ReadUnsigned(t[1..]))
    else ReadUnsigned(t)
  }

  function WithSign(negative: bool, read: Option<Numeral>): Option<Numeral>
  {
    match read
    case None => None
    case Some(n) => Some(n.(negative := negative))
  }

  function Pow10(k: nat): (p: nat)
    ensures p >= 1
  {
    if k == 0 then 1 else 10 * Pow10(k - 1)
  }

  /** The integer a numeral stands for, or None when it has a fractional part:
      each negative power of ten must cancel a trailing zero of the digits. */
  function IntegerOf(n: Numeral): (r: Option<int>)
    decreases if n.scale < 0 then -n.scale else 0
  {
    if n.scale >= 0 then
      var k := n.mantissa * Pow10(n.scale);
      Some(if n.negative then -k else k)
    else if n.mantissa % 10 != 0 then None
    else IntegerOf(Numeral(n.negative, n.mantissa / 10, n.scale + 1))
  }

  /** The integer a text stands for under numeric affinity, if it reads as one. */
  function TextInteger(s: string): (r: Option<int>)
  {
    IntegerOfReading(ReadNumeral(SkipTrailingSpaces(SkipLeadingSpaces(s))))
  }

  function IntegerOfReading(read: Option<Numeral>): (r: Option<int>)
  {
    match read
    case None => None
    case Some(n) => IntegerOf(n)
  }

  /** The integer a bound value stands for when compared with, or stored in, an
      INTEGER column: a number as itself, a boolean as 1 or 0, a text through
      numeric affinity, and an array or object through the text it is bound as. */
  function AsInteger(v: JsValue): (r: Option<int>)
    ensures v.Num? ==> r == Some(v.n)
    ensures v.Null? || v.Undefined? ==> r == None
  {
    match v
    case Undefined => None
    case Null => None
    case Num(n) => Some(n)
    case Bool(b) => Some(if b then 1 else 0)
    case Str(s) => TextInteger(s)
    case _ => TextInteger(ToText(v))
  }

  /** `WHERE id = ?` against an INTEGER column. */
  predicate MatchesId(param: JsValue, id: int)
  {
    AsInteger(param) == Some(id)
  }

  /** A path segment written as `${id}` selects that id. */
  lemma MatchesTextOfId(id: nat)
    ensures MatchesId(Str(ToText(Num(id))), id)
  {
    DecimalOfNatToString(id);
    AsIntegerOfDecimal(NatToString(id));
  }

  /** The digit run of digits followed by a non-digit stops at the non-digit. */
  lemma {:induction false} DigitRunOfPrefix(d: string, rest: string)
    requires AllDigits(d) && (rest == [] || !IsDigit(rest[0]))
    ensures DigitRun(d + rest) == |d|
  {
    if d != [] {
      assert (d + rest)[1..] == d[1..] + rest;
      DigitRunOfPrefix(d[1..], rest);
    } else {
      assert d + rest == rest;
    }
  }

  lemma NoSpacesAround(s: string)
    requires s != [] && !IsSqlSpace(s[0]) && !IsSqlSpace(s[|s| - 1])
    ensures TextInteger(s) == IntegerOfReading(ReadNumeral(s))
  {
    SkipNoSpaces(s);
  }

  /** A text that starts with a sign. */
  lemma ReadSigned(c: char, u: string)
    requires c == '+' || c == '-'
    ensures ReadNumeral([c] + u) == WithSign(c == '-', ReadUnsigned(u))
  {
    assert ([c] + u)[1..] == u;
  }

  /** A text that starts with a digit has no sign. */
  lemma ReadUnsignedStart(t: string)
    requires t != [] && IsDigit(t[0])
    ensures ReadNumeral(t) == ReadUnsigned(t)
  {
  }

  /** Trailing zeros cancel the negative powers of ten. */
  lemma {:induction false} IntegerOfZeros(d: string, z: string)
    requires IsDecimal(d) && forall i :: 0 <= i < |z| ==> z[i] == '0'
    ensures AllDigits(d + z)
    ensures IntegerOf(Numeral(false, DecimalValue(d + z), -|z|)) == Some(DecimalValue(d) as int)
  {
    if z == [] {
      assert d + z == d;
    } else {
      var z' := z[..|z| - 1];
      assert (d + z)[..|d + z| - 1] == d + z' && (d + z)[|d + z| - 1] == '0';
      IntegerOfZeros(d, z');
      var m := DecimalValue(d + z');
      assert DecimalValue(d + z) == m * 10;
      assert IntegerOf(Numeral(false, m * 10, -|z|)) == IntegerOf(Numeral(false, m, -|z'|)) by {
        assert (m * 10) % 10 == 0 && (m * 10) / 10 == m;
      }
    }
  }

  /** Digits, then what follows them. */
  lemma ReadUnsignedOf(d: string, rest: string)
    requires AllDigits(d) && (rest == [] || !IsDigit(rest[0]))
    ensures ReadUnsigned(d + rest) == AfterWhole(d, rest)
  {
    DigitRunOfPrefix(d, rest);
    assert (d + rest)[..|d|] == d && (d + rest)[|d|..] == rest;
  }

  /** A decimal numeral with nothing after it. */
  lemma ReadDecimal(d: string)
    requires IsDecimal(d)
    ensures ReadUnsigned(d) == Some(Numeral(false, DecimalValue(d), 0))
  {
    ReadUnsignedOf(d, []);
    assert d + [] == d;
  }

  /** A decimal numeral reads as its value. */
  lemma AsIntegerOfDecimal(d: string)
    requires IsDecimal(d)
    ensures AsInteger(Str(d)) == Some(DecimalValue(d))
  {
    NoSpacesAround(d);
    ReadDecimal(d);
  }

  /** A sign before a decimal numeral is read as the sign of the number. */
  lemma AsIntegerOfSigned(d: string)
    requires IsDecimal(d)
    ensures AsInteger(Str("+" + d)) == Some(DecimalValue(d))
    ensures AsInteger(Str("-" + d)) == Some(-(DecimalValue(d) as int))
  {
    TextOfSigned('+', d);
    TextOfSigned('-', d);
  }

  lemma TextOfSigned(c: char, d: string)
    requires (c == '+' || c == '-') && IsDecimal(d)
    ensures TextInteger([c] + d) == Some(if c == '-' then -(DecimalValue(d) as int) else DecimalValue(d))
  {
    var t := [c] + d;
    assert t[0] == c && t[|t| - 1] == d[|d| - 1];
    NoSpacesAround(t);
    ReadOfSigned(c, d);
  }

  lemma ReadOfSigned(c: char, d: string)
    requires (c == '+' || c == '-') && IsDecimal(d)
    ensures IntegerOfReading(ReadNumeral([c] + d)) == Some(if c == '-' then -(DecimalValue(d) as int) else DecimalValue(d))
  {
    ReadDecimal(d);
    ReadSigned(c, d);
  }

  /** White space SQLite skips around a text does not change the number it reads. */
  lemma AsIntegerOfSpaced(p: string, t: string, q: string)
    requires forall i :: 0 <= i < |p| ==> IsSqlSpace(p[i])
    requires forall i :: 0 <= i < |q| ==> IsSqlSpace(q[i])
    requires t != [] && !IsSqlSpace(t[0]) && !IsSqlSpace(t[|t| - 1])
    ensures AsInteger(Str(p + t + q)) == AsInteger(Str(t))
  {
    SkipLeadingOfSpaces(p, t + q);
    assert p + t + q == p + (t + q);
    SkipTrailingOfSpaces(t, q);
    SkipNoSpaces(t);
    TextIntegerOfSkipped(p + t + q, t);
  }

  lemma TextIntegerOfSkipped(s: string, t: string)
    requires SkipTrailingSpaces(SkipLeadingSpaces(s)) == SkipTrailingSpaces(SkipLeadingSpaces(t))
    ensures TextInteger(s) == TextInteger(t)
  {
  }

  lemma SkipNoSpaces(s: string)
    requires s != [] && !IsSqlSpace(s[0]) && !IsSqlSpace(s[|s| - 1])
    ensures SkipTrailingSpaces(SkipLeadingSpaces(s)) == s
  {
  }

  lemma {:induction false} SkipLeadingOfSpaces(p: string, t: string)
    requires forall i :: 0 <= i < |p| ==> IsSqlSpace(p[i])
    requires t != [] && !IsSqlSpace(t[0])
    ensures SkipLeadingSpaces(p + t) == t
  {
    if p == [] {
      assert p + t == t;
    } else {
      assert (p + t)[0] == p[0] && (p + t)[1..] == p[1..] + t;
      SkipLeadingOfSpaces(p[1..], t);
    }
  }

  lemma {:induction false} SkipTrailingOfSpaces(t: string, q: string)
    requires forall i :: 0 <= i < |q| ==> IsSqlSpace(q[i])
    requires t != [] && !IsSqlSpace(t[|t| - 1])
    ensures SkipTrailingSpaces(t + q) == t
  {
    if q == [] {
      assert t + q == t;
    } else {
      var q' := q[..|q| - 1];
      assert (t + q)[|t + q| - 1] == q[|q| - 1] && (t + q)[..|t + q| - 1] == t + q';
      SkipTrailingOfSpaces(t, q');
    }
  }

  /** A point and digits after the integer digits. */
  lemma AfterWholeOfFraction(d: string, f: string)
    requires AllDigits(d) && AllDigits(f) && d + f != []
    ensures AfterWhole(d, "." + f) == Some(Numeral(false, DecimalValue(d + f), -|f|))
  {
    var rest := "." + f;
    assert rest != [] && rest[0] == '.' && rest[1..] == f;
    DigitRunOfAll(f);
    assert f[..|f|] == f && f[|f|..] == [];
    FinishWithoutExponent(d, f);
  }

  /** A run of digits is read to its end. */
  lemma DigitRunOfAll(f: string)
    requires AllDigits(f)
    ensures DigitRun(f) == |f|
  {
    DigitRunOfPrefix(f, []);
    assert f + [] == f;
  }

  /** Digits with nothing after them: the digits scaled by the fraction's length. */
  lemma FinishWithoutExponent(d: string, f: string)
    requires AllDigits(d + f) && d + f != []
    ensures Finish(d, f, []) == Some(Numeral(false, DecimalValue(d + f), -|f|))
  {
  }

  /** Digits, a point and more digits, read without the surrounding text. */
  lemma ReadFractionText(d: string, f: string)
    requires IsDecimal(d) && AllDigits(f)
    ensures ReadNumeral(d + "." + f) == Some(Numeral(false, DecimalValue(d + f), -|f|))
  {
    assert d + "." + f == d + ("." + f);
    ReadAfterDigits(d, "." + f);
    AfterWholeOfFraction(d, f);
  }

  /** Digits followed by something other than a digit. */
  lemma ReadAfterDigits(d: string, rest: string)
    requires IsDecimal(d) && rest != [] && !IsDigit(rest[0])
    ensures ReadNumeral(d + rest) == AfterWhole(d, rest)
  {
    assert (d + rest)[0] == d[0];
    ReadUnsignedStart(d + rest);
    ReadUnsignedOf(d, rest);
  }

  /** A decimal numeral with a fraction of zeros (possibly none, as in `5.`) reads as
      the integer before the point. */
  lemma AsIntegerOfZeroFraction(d: string, z: string)
    requires IsDecimal(d) && forall i :: 0 <= i < |z| ==> z[i] == '0'
    ensures AsInteger(Str(d + "." + z)) == Some(DecimalValue(d))
  {
    var t := d + "." + z;
    assert t[0] == d[0] && (t[|t| - 1] == '.' || t[|t| - 1] == '0');
    NoSpacesAround(t);
    ReadFractionText(d, z);
    IntegerOfZeros(d, z);
  }

  /** A decimal numeral with a nonzero tenths digit is not an integer and matches no id. */
  lemma AsIntegerOfTenths(d: string, c: char)
    requires IsDecimal(d) && IsDigit(c) && c != '0'
    ensures AsInteger(Str(d + "." + [c])) == None
  {
    var t := d + "." + [c];
    assert t[0] == d[0] && t[|t| - 1] == c;
    NoSpacesAround(t);
    ReadFractionText(d, [c]);
    IntegerOfTenths(d, c);
  }

  lemma IntegerOfTenths(d: string, c: char)
    requires IsDecimal(d) && IsDigit(c) && c != '0'
    ensures IntegerOf(Numeral(false, DecimalValue(d + [c]), -1)) == None
  {
    assert (d + [c])[..|d|] == d;
    assert DecimalValue(d + [c]) % 10 == DigitValue(c);
  }

  lemma ExponentOf(k: nat)
    ensures Exponent("e" + NatToString(k)) == Some(k)
  {
    var x := NatToString(k);
    DecimalOfNatToString(k);
    assert ("e" + x)[1..] == x && x[0] != '-' && x[0] != '+';
  }

  lemma ReadExponent(d: string, k: nat)
    requires IsDecimal(d)
    ensures ReadNumeral(d + "e" + NatToString(k)) == Some(Numeral(false, DecimalValue(d), k))
  {
    var e := "e" + NatToString(k);
    assert d + "e" + NatToString(k) == d + e;
    ReadAfterDigits(d, e);
    ExponentOf(k);
    AfterWholeOfExponent(d, e, k);
  }

  lemma AfterWholeOfExponent(d: string, e: string, k: nat)
    requires IsDecimal(d) && e != [] && e[0] == 'e' && Exponent(e) == Some(k)
    ensures AfterWhole(d, e) == Some(Numeral(false, DecimalValue(d), k))
  {
    assert d + [] == d;
  }

  /** An exponent clause multiplies by that power of ten. */
  lemma AsIntegerOfExponent(d: string, k: nat)
    requires IsDecimal(d)
    ensures AsInteger(Str(d + "e" + NatToString(k))) == Some(DecimalValue(d) * Pow10(k))
  {
    var x := NatToString(k);
    var t := d + "e" + x;
    assert t[0] == d[0] && t[|t| - 1] == x[|x| - 1];
    NoSpacesAround(t);
    ReadExponent(d, k);
  }

  // Text affinity: a value compared with, or stored in, a TEXT column is
  // compared as the text the driver's binding turns into.

  /** The range of a 32-bit signed integer, which the driver binds as an INTEGER;
      any other number it binds as a REAL. */
  predicate IsInt32(n: int)
  {
    -0x8000_0000 <= n < 0x8000_0000
  }

  /** The text a bound value becomes under TEXT affinity: a string as itself; a
      32-bit number, bound as an INTEGER, in decimal; a larger whole number, bound
      as a REAL, in decimal with `.0`; a boolean, bound as 1 or 0, as that digit;
      an array or object as its String(). Null and undefined bind as NULL, which
      has no text. */
  function AsText(v: JsValue): (r: Option<string>)
    ensures r.None? <==> v.Null? || v.Undefined?
    ensures v.Str? ==> r == Some(v.s)
    ensures v.Num? && IsInt32(v.n) ==> r == Some(ToText(v))
  {
    match v
    case Undefined => None
    case Null => None
    case Bool(b) => Some(if b then "1" else "0")
    case Num(n) => Some(if IsInt32(n) then IntToString(n) else IntToString(n) + ".0")
    case _ => Some(ToText(v))
  }

  /** `WHERE column = ?` against a TEXT column: both sides as text; NULL equals nothing. */
  predicate TextMatches(stored: JsValue, param: JsValue)
  {
    AsText(stored).Some? && AsText(stored) == AsText(param)
  }

  /** The comparison is an equivalence on the values that are not NULL. */
  lemma TextMatchesEquivalence(a: JsValue, b: JsValue, c: JsValue)
    ensures !(a.Null? || a.Undefined?) ==> TextMatches(a, a)
    ensures TextMatches(a, b) ==> TextMatches(b, a)
    ensures TextMatches(a, b) && TextMatches(b, c) ==> TextMatches(a, c)
  {
  }

  /** Two texts match exactly when they are equal. */
  lemma TextMatchesOfTexts(a: string, b: string)
    ensures TextMatches(Str(a), Str(b)) <==> a == b
  {
  }

  /** A 32-bit number and its decimal text match each other, in either order. */
  lemma NumberMatchesItsText(n: int)
    requires IsInt32(n)
    ensures TextMatches(Num(n), Str(IntToString(n)))
    ensures TextMatches(Str(IntToString(n)), Num(n))
  {
  }

  /** A boolean matches the digit it is bound as, and not its JavaScript text. */
  lemma BooleanMatchesDigit(b: bool)
    ensures TextMatches(Bool(b), Str(if b then "1" else "0"))
    ensures !TextMatches(Bool(b), Str(if b then "true" else "false"))
  {
  }

  /** TEXT affinity (names, categories, e-mails): a value stored in a TEXT column
      is its text; null and undefined are NULL. */
  function TextAffinity(v: JsValue): (r: SqlValue)
    ensures r.SqlNull? <==> v.Null? || v.Undefined?
    ensures v.Str? ==> r == SqlText(v.s)
    ensures r.SqlText? ==> Some(r.t) == AsText(v)
  {
    match AsText(v)
    case None => SqlNull
    case Some(t) => SqlText(t)
  }

  /** `WHERE email = ?` is the TEXT-affinity comparison. */
  lemma TextMatchesIsEqual(stored: JsValue, param: JsValue)
    ensures TextMatches(stored, param) <==> Equal(TextAffinity(stored), TextAffinity(param))
  {
    if AsText(stored).Some? && AsText(param).Some? {
      EqualOnText(AsText(stored).value, AsText(param).value, IntNumeral(0));
    }
  }

  // Numeric affinity of DATE and TIME columns.

  /** A text under NUMERIC affinity: a numeric literal, apart from white space
      around it, becomes that number; any other text stays text. */
  function NumericText(s: string): (r: SqlValue)
    ensures !r.SqlNull?
    ensures r.SqlText? ==> r.t == s && TextInteger(s).None?
    ensures r.SqlNumber? ==> IntegerOf(r.n) == TextInteger(s)
  {
    match ReadNumeral(SkipTrailingSpaces(SkipLeadingSpaces(s)))
    case Some(n) => SqlNumber(n)
    case None => SqlText(s)
  }

  /** NUMERIC affinity (the column is declared DATE or TIME): what a bound value
      is stored as, and what a parameter compared with such a column becomes. */
  function NumericAffinity(v: JsValue): (r: SqlValue)
    ensures r.SqlNull? <==> v.Null? || v.Undefined?
    ensures v.Num? ==> r == SqlNumber(IntNumeral(v.n))
  {
    match v
    case Undefined => SqlNull
    case Null => SqlNull
    case Num(n) => SqlNumber(IntNumeral(n))
    case Bool(b) => SqlNumber(IntNumeral(if b then 1 else 0))
    case _ => NumericText(ToText(v))
  }

  /** `appointment_date = ?` with a text parameter. */
  predicate DateEquals(stored: JsValue, param: string)
  {
    Equal(NumericAffinity(stored), NumericAffinity(Str(param)))
  }

  /** `appointment_date >= ?` with a text parameter. */
  predicate DateAtLeast(stored: JsValue, param: string)
  {
    AtLeast(NumericAffinity(stored), NumericAffinity(Str(param)))
  }

  /** A date equal to one parameter is on or after every parameter that sorts
      before it. */
  lemma DateEqualsIsAtLeast(v: JsValue, t: string, u: string)
    requires DateEquals(v, t) && Le(NumericAffinity(Str(u)), NumericAffinity(Str(t)))
    ensures DateAtLeast(v, u)
  {
    EqualIsAtLeast(NumericAffinity(v), NumericAffinity(Str(t)), NumericAffinity(Str(u)));
  }

  /** Digits followed by a dash, as in `2024-01-15`, are no number: the text stays text. */
  lemma DashedTextStaysText(d: string, rest: string)
    requires IsDecimal(d) && rest != [] && rest[0] == '-' && !IsSqlSpace(rest[|rest| - 1])
    ensures NumericAffinity(Str(d + rest)) == SqlText(d + rest)
  {
    var t := d + rest;
    assert t[0] == d[0] && t[|t| - 1] == rest[|rest| - 1];
    SkipNoSpaces(t);
    ReadAfterDigits(d, rest);
    assert AfterWhole(d, rest) == Finish(d, [], rest) by {
      assert d + [] == d;
    }
  }

  /** A `YYYY-MM-DD` text, as `toISOString().split('T')[0]` writes one. */
  predicate IsIsoDate(s: string)
  {
    && |s| == 10 && s[4] == '-' && s[7] == '-'
    && IsDigit(s[0]) && IsDigit(s[1]) && IsDigit(s[2]) && IsDigit(s[3])
    && IsDigit(s[5]) && IsDigit(s[6]) && IsDigit(s[8]) && IsDigit(s[9])
  }

  /** An ISO date is stored and compared as text. */
  lemma IsoDateStaysText(s: string)
    requires IsIsoDate(s)
    ensures NumericAffinity(Str(s)) == SqlText(s)
  {
    assert s == s[..4] + s[4..];
    assert AllDigits(s[..4]) by {
      assert forall i :: 0 <= i < 4 ==> s[..4][i] == s[i];
    }
    DashedTextStaysText(s[..4], s[4..]);
  }

  /** ISO dates compare in BINARY collation, which for them is calendar order. */
  lemma IsoDatesCompareAsText(a: string, b: string)
    requires IsIsoDate(a) && IsIsoDate(b)
    ensures Le(NumericAffinity(Str(a)), NumericAffinity(Str(b))) <==> LexLe(a, b)
  {
    IsoDateStaysText(a);
    IsoDateStaysText(b);
  }

  /** A date of digits only, such as `20240115`, is stored as a number. */
  lemma DecimalDateIsNumber(d: string)
    requires IsDecimal(d)
    ensures NumericAffinity(Str(d)) == SqlNumber(Numeral(false, DecimalValue(d), 0))
  {
    SkipNoSpaces(d);
    ReadUnsignedStart(d);
    ReadDecimal(d);
  }

  /** A number sorts before every text, so a date stored as a number is neither
      equal to nor on or after a parameter that stays text. */
  lemma DecimalDateBeforeText(d: string, t: string)
    requires IsDecimal(d) && NumericAffinity(Str(t)).SqlText?
    ensures !DateEquals(Str(d), t) && !DateAtLeast(Str(d), t)
  {
    DecimalDateIsNumber(d);
    EqualOnText(t, t, Numeral(false, DecimalValue(d), 0));
  }

  /** An array of one text or number is bound as that element's text. */
  lemma SingletonBoundAsElement(x: JsValue)
    requires x.Str? || x.Num?
    ensures ToText(Arr([x])) == ToText(x)
    ensures NumericAffinity(Arr([x])) == NumericText(ToText(x))
    ensures AsInteger(Arr([x])) == TextInteger(ToText(x))
  {
    SingletonText(x);
  }

  /** An id sent as a one-element array, `[5]` or `["5"]`, selects the same row as
      the id itself. */
  lemma AsIntegerOfSingleton(x: JsValue)
    requires x.Str? || x.Num?
    ensures AsInteger(Arr([x])) == AsInteger(x)
  {
    SingletonBoundAsElement(x);
    if x.Num? {
      TextIntegerOfIntToString(x.n);
    }
  }

  /** The decimal text of an integer reads back as that integer. */
  lemma TextIntegerOfIntToString(n: int)
    ensures TextInteger(IntToString(n)) == Some(n)
  {
    if n >= 0 {
      DecimalOfNatToString(n);
      AsIntegerOfDecimal(NatToString(n));
    } else {
      var d := NatToString(-n);
      DecimalOfNatToString(-n);
      assert IntToString(n) == ['-'] + d;
      TextOfSigned('-', d);
    }
  }
}
