// Parameter values as the tuning panel edits them: parsing the text a user
// typed (AppController._parse_value) and writing a value back as a Python
// literal (AppController._to_literal).  A float is modelled by the finite
// decimal numeral it was typed as.

module ParamText {
  import opened Wrappers
  import opened Text

  /** The number digits / 10^places. */
  datatype Decimal = Decimal(digits: int, places: nat)

  function Value(d: Decimal): real {
    d.digits as real / Pow10(d.places) as real
  }

  /** The fraction has no trailing zero: the shortest numeral for its value. */
  predicate Canonical(d: Decimal) {
    d.places == 0 || d.digits % 10 != 0
  }

  /** Drops trailing zeros of the fraction. */
  function Normalize(d: Decimal): (r: Decimal)
    ensures Canonical(r)
    ensures Value(r) == Value(d)
    ensures r.places <= d.places
    ensures Canonical(d) ==> r == d
    decreases d.places
  {
    if d.places > 0 && d.digits % 10 == 0 then
      DropZeroValue(d);
      Normalize(Decimal(d.digits / 10, d.places - 1))
    else
      d
  }

  lemma DropZeroValue(d: Decimal)
    requires d.places > 0 && d.digits % 10 == 0
    ensures Value(Decimal(d.digits / 10, d.places - 1)) == Value(d)
  {
    var q, p := d.digits / 10, Pow10(d.places - 1);
    assert d.digits == 10 * q;
    assert Pow10(d.places) == 10 * p;
    assert (10 * q) as real == 10.0 * q as real;
    assert (10 * p) as real == 10.0 * p as real;
    assert (10.0 * q as real) / (10.0 * p as real) == q as real / p as real;
  }

  /** int() of a float: the integer part, rounded toward zero. */
  function Trunc(d: Decimal): (r: int)
    ensures d.digits >= 0 ==> 0 <= r && r as real <= Value(d) < (r + 1) as real
    ensures d.digits < 0 ==> r <= 0 && (r - 1) as real < Value(d) <= r as real
  {
    var p := Pow10(d.places);
    TruncBounds(if d.digits >= 0 then d.digits else -d.digits, p);
    if d.digits >= 0 then d.digits / p else -((-d.digits) / p)
  }

  /** n / p lies between the integer part of the quotient and the next integer. */
  lemma TruncBounds(n: nat, p: nat)
    requires p >= 1
    ensures (n / p) as real <= n as real / p as real < (n / p + 1) as real
    ensures -(n as real) / p as real == -(n as real / p as real)
  {
    var q, m := n / p, n % p;
    assert n == q * p + m && 0 <= m < p;
    assert n as real == q as real * p as real + m as real;
    assert n as real / p as real == q as real + m as real / p as real;
    assert 0.0 <= m as real / p as real < 1.0;
  }

  /**
   * The integer and fraction digits of a numeral "ddd", "ddd.", ".ddd" or
   * "ddd.ddd"; a lone point, a second point or any other character is
   * rejected.
   */
  function SplitNumeral(s: string): (r: Option<(string, string)>)
    ensures r.Some? ==> AllDigits(r.value.0) && AllDigits(r.value.1) && |r.value.0| + |r.value.1| >= 1
    ensures r.Some? ==> (s == r.value.0 && r.value.1 == []) || s == r.value.0 + "." + r.value.1
  {
    var k := LeadingDigits(s);
    if k == |s| then
      if k > 0 then Some((s, "")) else None
    else if s[k] == '.' && AllDigits(s[k + 1..]) && (k > 0 || k + 1 < |s|) then
      assert s == s[..k] + "." + s[k + 1..];
      Some((s[..k], s[k + 1..]))
    else
      None
  }

  lemma SplitWhole(a: string)
    requires AllDigits(a) && |a| >= 1
    ensures SplitNumeral(a) == Some((a, ""))
  {
    assert LeadingDigits(a) == |a|;
  }

  lemma SplitPointed(a: string, b: string)
    requires AllDigits(a) && AllDigits(b) && |a| + |b| >= 1
    ensures SplitNumeral(a + "." + b) == Some((a, b))
  {
    var s := a + "." + b;
    assert s[|a|] == '.';
    assert forall i :: 0 <= i < |a| ==> s[i] == a[i];
    assert LeadingDigits(s) == |a|;
    assert s[..|a|] == a && s[|a| + 1..] == b;
  }

  /**
   * float() of a string, for numerals written with digits and at most one
   * point: surrounding whitespace and one sign are allowed.
   */
  function ParseFloat(text: string): Option<Decimal> {
    ParseSigned(Strip(text))
  }

  /** A numeral with an optional leading sign. */
  function ParseSigned(t: string): Option<Decimal> {
    if |t| > 0 && (t[0] == '+' || t[0] == '-') then ParseUnsigned(t[0] == '-', t[1..])
    else ParseUnsigned(false, t)
  }

  function ParseUnsigned(negative: bool, body: string): Option<Decimal> {
    match SplitNumeral(body)
    case None => None
    case Some(parts) =>
      var m: int := DigitsValue(parts.0 + parts.1);
      Some(Decimal(if negative then -m else m, |parts.1|))
  }

  /** A numeral that starts with a digit is read with the sign in front of it. */
  lemma ParseSignedDigits(negative: bool, body: string)
    requires |body| > 0 && IsDigit(body[0])
    ensures ParseSigned((if negative then "-" else "") + body) == ParseUnsigned(negative, body)
  {
    var t := (if negative then "-" else "") + body;
    if negative {
      assert t[0] == '-' && t[1..] == body;
    } else {
      assert t == body;
    }
  }

  /** s padded on the left with '0' to at least width characters. */
  function ZeroPad(s: string, width: nat): (r: string)
    ensures |r| == if |s| >= width then |s| else width
    ensures |s| >= 1 ==> r[|r| - 1] == s[|s| - 1]
    ensures AllDigits(s) ==> AllDigits(r)
  {
    if |s| >= width then s else seq(width - |s|, _ => '0') + s
  }

  function Abs(i: int): nat { if i < 0 then -i else i }

  /**
   * repr() of the float a canonical decimal denotes, in positional notation:
   * an optional '-', the integer part, a point and the fraction digits, or
   * ".0" for an integral value.
   */
  function FloatRepr(d: Decimal): string
    requires Canonical(d)
  {
    (if d.digits < 0 then "-" else "") + UnsignedRepr(d)
  }

  /** The digits of FloatRepr(d) after the sign. */
  function UnsignedRepr(d: Decimal): (s: string)
    ensures |s| >= 3 && IsDigit(s[0]) && IsDigit(s[|s| - 1])
  {
    var a := Abs(d.digits);
    if d.places == 0 then
      Pointed(NatToString(a), "0")
    else
      var (whole, fraction) := QuotRem(a, Pow10(d.places));
      Pointed(NatToString(whole), ZeroPad(NatToString(fraction), d.places))
  }

  /** The quotient and remainder of a by p. */
  function QuotRem(a: nat, p: nat): (r: (nat, nat))
    requires p >= 1
    ensures r.0 * p + r.1 == a && r.1 < p
  {
    (a / p, a % p)
  }

  /** The numeral a.b of two digit strings. */
  function Pointed(a: string, b: string): (s: string)
    requires |a| >= 1 && |b| >= 1 && IsDigit(a[0]) && IsDigit(b[|b| - 1])
    ensures |s| >= 3 && IsDigit(s[0]) && IsDigit(s[|s| - 1])
  {
    a + "." + b
  }

  /** A configuration value; its kind is fixed by the field's default. */
  datatype ParamValue = BoolVal(b: bool) | IntVal(i: int) | FloatVal(f: Decimal)

  predicate SameKind(a: ParamValue, b: ParamValue) {
    a.BoolVal? == b.BoolVal? && a.IntVal? == b.IntVal? && a.FloatVal? == b.FloatVal?
  }

  /** Floats are held in canonical form. */
  predicate WellFormedValue(v: ParamValue) {
    v.FloatVal? ==> Canonical(v.f)
  }

  /** The words that read as true for a boolean field, after stripping and lower-casing. */
  const TruthyWords: set<string> := {"1", "true", "yes", "y", "on"}

  datatype ParseError = NotANumber(text: string)

  /**
   * The new value of a field whose current value is current: a boolean field
   * takes any text, true exactly for the truthy words; an integer field takes
   * a float numeral truncated toward zero; a float field takes a float
   * numeral.
   */
  function ParseValue(current: ParamValue, text: string): (r: Result<ParamValue, ParseError>)
    ensures r.Success? ==> SameKind(r.value, current) && WellFormedValue(r.value)
    ensures r.Failure? <==> !current.BoolVal? && ParseFloat(text).None?
    ensures current.BoolVal? ==> r == Success(BoolVal(Lower(Strip(text)) in TruthyWords))
    ensures current.IntVal? && r.Success? ==> r.value.i == Trunc(ParseFloat(text).value)
    ensures current.FloatVal? && r.Success? ==> Value(r.value.f) == Value(ParseFloat(text).value)
  {
    match current
    case BoolVal(_) => Success(BoolVal(Lower(Strip(text)) in TruthyWords))
    case IntVal(_) =>
      (match ParseFloat(text)
       case None => Failure(NotANumber(text))
       case Some(d) => Success(IntVal(Trunc(d))))
    case FloatVal(_) =>
      (match ParseFloat(text)
       case None => Failure(NotANumber(text))
       case Some(d) => Success(FloatVal(Normalize(d))))
  }

  /** The Python literal written to the configuration source for a value. */
  function ToLiteral(v: ParamValue): (s: string)
    ensures |s| >= 1
    ensures v.BoolVal? ==> s == (if v.b then "True" else "False")
  {
    match v
    case BoolVal(b) => if b then "True" else "False"
    case IntVal(i) => IntToString(i)
    case FloatVal(f) => FloatRepr(Normalize(f))
  }

  /**
   * The literal of an int is an optional '-' and digits, with no point, that
   * float() reads back as the int; the literal of a float has exactly one
   * point and float() reads it back as the same value.
   */
  lemma LiteralForms(v: ParamValue)
    ensures var s := ToLiteral(v);
      v.IntVal? ==>
        && '.' !in s && (s[0] == '-' <==> v.i < 0) && AllDigits(if v.i < 0 then s[1..] else s)
        && ParseFloat(s) == Some(Decimal(v.i, 0))
    ensures var s := ToLiteral(v);
      v.FloatVal? ==>
        && multiset(s)['.'] == 1
        && ParseFloat(s).Some? && Normalize(ParseFloat(s).value) == Normalize(v.f)
        && Value(ParseFloat(s).value) == Value(v.f)
  {
    match v
    case BoolVal(_) =>
    case IntVal(i) =>
      ParseIntLiteral(i);
      IntLiteralDigits(i);
    case FloatVal(f) =>
      ParseFloatLiteral(Normalize(f));
      FloatReprOnePoint(Normalize(f));
  }

  /** str() of an integer is an optional '-' and digits, with no point. */
  lemma IntLiteralDigits(i: int)
    ensures var s := IntToString(i);
      '.' !in s && AllDigits(if i < 0 then s[1..] else s)
  {
    var s := IntToString(i);
    var ds := NatToString(Abs(i));
    assert s == (if i < 0 then "-" else "") + ds;
    assert (if i < 0 then s[1..] else s) == ds;
    DigitsHaveNoPoint(ds);
  }

  /** repr() of a float has exactly one point, between the integer and the fraction digits. */
  lemma FloatReprOnePoint(c: Decimal)
    requires Canonical(c)
    ensures multiset(FloatRepr(c))['.'] == 1
  {
    var sign: string := if c.digits < 0 then "-" else "";
    UnsignedReprOnePoint(c);
    assert FloatRepr(c) == sign + UnsignedRepr(c);
    assert multiset(sign)['.'] == 0;
  }

  lemma UnsignedReprOnePoint(c: Decimal)
    ensures multiset(UnsignedRepr(c))['.'] == 1
  {
    var a := Abs(c.digits);
    if c.places == 0 {
      PointedOnePoint(NatToString(a), "0");
    } else {
      var (whole, fraction) := QuotRem(a, Pow10(c.places));
      PointedOnePoint(NatToString(whole), ZeroPad(NatToString(fraction), c.places));
    }
  }

  lemma PointedOnePoint(a: string, b: string)
    requires |a| >= 1 && |b| >= 1 && AllDigits(a) && AllDigits(b)
    ensures multiset(Pointed(a, b))['.'] == 1
  {
    DigitsHaveNoPoint(a);
    DigitsHaveNoPoint(b);
    assert Pointed(a, b) == a + ['.'] + b;
  }

  lemma DigitsHaveNoPoint(s: string)
    requires AllDigits(s)
    ensures '.' !in s && multiset(s)['.'] == 0
  {
    forall k | 0 <= k < |s|
      ensures s[k] != '.'
    {
      assert IsDigit(s[k]);
    }
  }

  /** Parsing the literal written for a value gives the value back, kind by kind. */
  lemma LiteralRoundTrip(v: ParamValue)
    requires WellFormedValue(v)
    ensures ParseValue(v, ToLiteral(v)) == Success(v)
  {
    match v
    case BoolVal(b) => BoolRoundTrip(b);
    case IntVal(i) => IntRoundTrip(i);
    case FloatVal(f) => FloatRoundTrip(f);
  }

  lemma BoolRoundTrip(b: bool)
    ensures ParseValue(BoolVal(b), ToLiteral(BoolVal(b))) == Success(BoolVal(b))
  {
    var s := ToLiteral(BoolVal(b));
    StripUnchanged(s);
    if b {
      assert Lower("True") == "true";
    } else {
      assert Lower("False") == "false";
      assert "false" !in TruthyWords;
    }
  }

  lemma IntRoundTrip(i: int)
    ensures ParseValue(IntVal(i), ToLiteral(IntVal(i))) == Success(IntVal(i))
  {
    var s := ToLiteral(IntVal(i));
    LiteralForms(IntVal(i));
    assert Trunc(Decimal(i, 0)) == i;
  }

  lemma FloatRoundTrip(f: Decimal)
    requires Canonical(f)
    ensures ParseValue(FloatVal(f), ToLiteral(FloatVal(f))) == Success(FloatVal(f))
  {
    var s := ToLiteral(FloatVal(f));
    LiteralForms(FloatVal(f));
  }


  lemma ParseIntLiteral(i: int)
    ensures ParseFloat(IntToString(i)) == Some(Decimal(i, 0))
  {
    var ds := NatToString(Abs(i));
    IntLiteralStripped(i);
    assert IntToString(i) == (if i < 0 then "-" else "") + ds;
    ParseSignedDigits(i < 0, ds);
    ParseDigitString(i, ds);
  }

  lemma IntLiteralStripped(i: int)
    ensures Strip(IntToString(i)) == IntToString(i)
  {
    var ds := NatToString(Abs(i));
    var s := IntToString(i);
    assert s == (if i < 0 then "-" else "") + ds;
    assert s[|s| - 1] == ds[|ds| - 1];
    StripUnchanged(s);
  }

  lemma ParseDigitString(i: int, ds: string)
    requires ds == NatToString(Abs(i))
    ensures ParseUnsigned(i < 0, ds) == Some(Decimal(i, 0))
  {
    SplitWhole(ds);
    NatToStringValue(Abs(i));
    assert ds + "" == ds;
  }

  lemma ParseFloatLiteral(c: Decimal)
    requires Canonical(c)
    ensures ParseFloat(FloatRepr(c)).Some?
    ensures Normalize(ParseFloat(FloatRepr(c)).value) == c
  {
    FloatLiteralStripped(c);
    ParseSignedDigits(c.digits < 0, UnsignedRepr(c));
    if c.places == 0 {
      ParseIntegralRepr(c);
    } else {
      ParseFractionRepr(c);
    }
  }

  lemma FloatLiteralStripped(c: Decimal)
    requires Canonical(c)
    ensures Strip(FloatRepr(c)) == FloatRepr(c)
  {
    var s := FloatRepr(c);
    var body := UnsignedRepr(c);
    assert s[|s| - 1] == body[|body| - 1];
    StripUnchanged(s);
  }

  /** An integral value is written with ".0", read back with one place and normalized. */
  lemma ParseIntegralRepr(c: Decimal)
    requires c.places == 0
    ensures ParseUnsigned(c.digits < 0, UnsignedRepr(c)) == Some(Decimal(10 * c.digits, 1))
    ensures Normalize(Decimal(10 * c.digits, 1)) == c
  {
    var a := Abs(c.digits);
    var ip := NatToString(a);
    assert UnsignedRepr(c) == ip + "." + "0";
    SplitPointed(ip, "0");
    DigitsValueAppend(ip, "0");
    NatToStringValue(a);
    assert DigitsValue("0") == 0;
    assert (10 * c.digits) / 10 == c.digits;
  }

  lemma ParseFractionRepr(c: Decimal)
    requires c.places > 0
    ensures ParseUnsigned(c.digits < 0, UnsignedRepr(c)) == Some(c)
  {
    var a := Abs(c.digits);
    var p := Pow10(c.places);
    var (whole, fraction) := QuotRem(a, p);
    var ip := NatToString(whole);
    var frac := ZeroPad(NatToString(fraction), c.places);
    FractionDigits(whole, fraction, c.places);
    assert UnsignedRepr(c) == ip + "." + frac;
    SplitPointed(ip, frac);
  }

  /** The digits whole, '.', fraction padded to places read back as whole * 10^places + fraction. */
  lemma FractionDigits(whole: nat, fraction: nat, places: nat)
    requires places >= 1 && fraction < Pow10(places)
    ensures |ZeroPad(NatToString(fraction), places)| == places
    ensures AllDigits(ZeroPad(NatToString(fraction), places))
    ensures AllDigits(NatToString(whole) + ZeroPad(NatToString(fraction), places))
    ensures DigitsValue(NatToString(whole) + ZeroPad(NatToString(fraction), places))
      == whole * Pow10(places) + fraction
  {
    var ip := NatToString(whole);
    var low := NatToString(fraction);
    NatToStringLength(fraction, places);
    var frac := ZeroPad(low, places);
    assert frac == seq(places - |low|, _ => '0') + low;
    LeadingZerosValue(places - |low|, low);
    DigitsValueAppend(ip, frac);
    NatToStringValue(whole);
    NatToStringValue(fraction);
  }
}
