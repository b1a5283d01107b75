/** JSON trees as the engine sees them after decoding, with the distinctions that
    `reflect.TypeOf` makes, and decimal numerals used as array index tokens. */
module Json {
  datatype Option<+T> = None | Some(value: T)

  datatype Json =
    | Null
    | Bool(b: bool)
    | Int(i: int)
    | Float(f: real)
    | Str(s: string)
    | Arr(items: seq<Json>)
    | Obj(fields: map<string, Json>)

  /** The comparison of a scalar of the resource with a scalar of the pattern. */
  type LeafTest = (Json, Json) -> bool

  /** `reflect.TypeOf(x) == reflect.TypeOf(y)` */
  predicate SameType(x: Json, y: Json) {
    && (x.Null? <==> y.Null?)
    && (x.Bool? <==> y.Bool?)
    && (x.Int? <==> y.Int?)
    && (x.Float? <==> y.Float?)
    && (x.Str? <==> y.Str?)
    && (x.Arr? <==> y.Arr?)
    && (x.Obj? <==> y.Obj?)
  }

  predicate IsDigit(c: char) {
    '0' <= c <= '9'
  }

  function DigitValue(c: char): (d: nat)
    requires IsDigit(c)
    ensures d < 10
  {
    c as int - '0' as int
  }

  /** `strconv.Itoa` on the non-negative numbers it is used for here. */
  function Itoa(n: nat): (s: string)
    ensures |s| > 0 && forall c | c in s :: IsDigit(c)
    ensures NumeralValue(s) == n
    ensures s[0] == '0' ==> n == 0 && s == "0"
  {
    var last := (n % 10 + '0' as int) as char;
    if n < 10 then [last] else Itoa(n / 10) + [last]
  }

  function NumeralValue(s: string): nat
    requires forall c | c in s :: IsDigit(c)
  {
    if s == [] then 0 else NumeralValue(s[..|s| - 1]) * 10 + DigitValue(s[|s| - 1])
  }

  /** The array-index grammar of section 4 of RFC 6901: digits without a leading zero. */
  function ParseIndex(s: string): Option<nat> {
    if s == [] || (exists c | c in s :: !IsDigit(c)) || (s[0] == '0' && s != "0") then
      None
    else
      Some(NumeralValue(s))
  }

  /** Digits without a leading zero. */
  predicate IsNumeral(s: string) {
    s != [] && (forall c | c in s :: IsDigit(c)) && (s[0] == '0' ==> |s| == 1)
  }

  lemma {:induction false} NumeralPositive(s: string)
    requires IsNumeral(s) && s[0] != '0'
    ensures NumeralValue(s) > 0
  {
    var init := s[..|s| - 1];
    if init != [] {
      assert init[0] == s[0];
      NumeralPositive(init);
    } else {
      assert s[|s| - 1] == s[0];
    }
  }

  /** A number has one numeral. */
  lemma {:induction false} OneNumeral(s: string, t: string)
    requires IsNumeral(s) && IsNumeral(t) && NumeralValue(s) == NumeralValue(t)
    ensures s == t
  {
    var a, b, c, d := s[..|s| - 1], t[..|t| - 1], s[|s| - 1], t[|t| - 1];
    assert s == a + [c] && t == b + [d];
    assert a != [] ==> a[0] == s[0];
    assert b != [] ==> b[0] == t[0];
    if a != [] {
      NumeralPositive(a);
    }
    if b != [] {
      NumeralPositive(b);
    }
    assert NumeralValue(a) == NumeralValue(b) && DigitValue(c) == DigitValue(d);
    if a != [] {
      OneNumeral(a, b);
    }
  }

  /** The index tokens are the numerals that `strconv.Itoa` writes, and each is read as its own
      number. */
  lemma IndexTokens(s: string, n: nat)
    ensures ParseIndex(s) == Some(n) <==> s == Itoa(n)
  {
    IndexRoundTrip(n);
    if ParseIndex(s) == Some(n) {
      OneNumeral(s, Itoa(n));
    }
  }

  /** An index written by `strconv.Itoa` is read back as the same array index. */
  lemma IndexRoundTrip(n: nat)
    ensures ParseIndex(Itoa(n)) == Some(n)
  {
  }
}
