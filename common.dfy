/**
 * Value types and JavaScript-level helpers shared by every other module:
 * optional values, thrown errors, numbers that may be NaN, loosely typed
 * server fields, decimal digits, `parseInt`, `trim`, `toLowerCase`,
 * `includes`, `filter`, `find` and `Math.round` of a quotient.
 */
module Common {

  datatype Option<+T> = None | Some(value: T) {
    /** `x ?? d`: the value when present, the default otherwise. */
    function GetOr(default: T): T {
      if Some? then value else default
    }
  }

  /** The outcome of a call that may throw: `Err` carries the thrown message. */
  datatype Result<+T> = Ok(value: T) | Err(message: string)

  /** A JavaScript number as the client uses it: an integer, or NaN. */
  datatype Number = Finite(value: int) | NaN {
    /** `x >= k`: false whenever x is NaN. */
    predicate AtLeast(k: int) {
      Finite? && value >= k
    }
  }

  /** A field of a server record that may be missing (`undefined`), `null`, or present. */
  datatype Field<+T> = Absent | Null | Present(value: T) {
    /** `x ?? d`: null and undefined both fall back to the default. */
    function OrElse(default: T): T {
      if Present? then value else default
    }
  }

  /** A loosely typed field of a server reply: a string, a number, or null/undefined. */
  datatype JsVal = JStr(s: string) | JNum(n: int) | Undefined

  /** `String(v)`. */
  function JsString(v: JsVal): string {
    match v
    case JStr(s) => s
    case JNum(n) => IntToString(n)
    case Undefined => "undefined"
  }

  /** `String(x)` for a number. */
  function NumberString(x: Number): string {
    if x.NaN? then "NaN" else IntToString(x.value)
  }

  /** `a ?? b` on loosely typed fields. */
  function Coalesce(a: JsVal, b: JsVal): JsVal {
    if a.Undefined? then b else a
  }

  // ---------------------------------------------------------------------
  // Rounding

  /** `Math.round(a / b)` for a positive divisor: the nearest integer, halves rounded up. */
  function RoundDiv(a: int, b: int): (r: int)
    requires b > 0
    ensures 2 * r * b - b <= 2 * a < 2 * r * b + b
  {
    var q := (2 * a + b) / (2 * b);
    var m := (2 * a + b) % (2 * b);
    assert 2 * a + b == q * (2 * b) + m && 0 <= m < 2 * b;
    q
  }

  /** A product with a positive factor has the sign of the other factor. */
  lemma FactorSign(x: int, b: int)
    requires b > 0
    ensures x * b <= 0 ==> x <= 0
    ensures x * b < 0 ==> x < 0
  {
  }

  /** The rounded quotient lies between the bounds of its dividend. */
  lemma RoundDivBounds(a: int, b: int, lo: int, hi: int)
    requires b > 0 && lo * b <= a <= hi * b
    ensures lo <= RoundDiv(a, b) <= hi
  {
    var r := RoundDiv(a, b);
    assert (2 * r - 1 - 2 * hi) * b == 2 * r * b - b - 2 * hi * b;
    FactorSign(2 * r - 1 - 2 * hi, b);
    assert (2 * lo - 2 * r - 1) * b == 2 * lo * b - 2 * r * b - b;
    FactorSign(2 * lo - 2 * r - 1, b);
  }

  /** Rounding an exact quotient gives the quotient back. */
  lemma RoundDivExact(k: int, b: int)
    requires b > 0
    ensures RoundDiv(k * b, b) == k
  {
    RoundDivBounds(k * b, b, k, k);
  }

  // ---------------------------------------------------------------------
  // Decimal digits

  predicate IsDigit(c: char) {
    '0' <= c <= '9'
  }

  predicate AllDigits(s: string) {
    forall i :: 0 <= i < |s| ==> IsDigit(s[i])
  }

  function DigitChar(d: nat): (c: char)
    requires d < 10
    ensures IsDigit(c) && c as int - '0' as int == d
  {
    ('0' as int + d) as char
  }

  /** `String(n)` for a non-negative integer: at least one decimal digit. */
  function NatToString(n: nat): (s: string)
    ensures 1 <= |s| && AllDigits(s)
  {
    if n < 10 then [DigitChar(n)] else NatToString(n / 10) + [DigitChar(n % 10)]
  }

  /** `String(n)` for any integer. */
  function IntToString(n: int): string {
    if n < 0 then "-" + NatToString(-n) else NatToString(n)
  }

  /** The value of a string of decimal digits. */
  function DigitsValue(s: string): nat
    requires AllDigits(s)
  {
    if s == [] then 0 else DigitsValue(s[..|s| - 1]) * 10 + (s[|s| - 1] as int - '0' as int)
  }

  /** Reading back the decimal form of n gives n. */
  lemma {:induction false} NatToStringValue(n: nat)
    ensures DigitsValue(NatToString(n)) == n
  {
    if n >= 10 {
      var s := NatToString(n);
      assert s[..|s| - 1] == NatToString(n / 10);
      NatToStringValue(n / 10);
    }
  }

  /** Decimal forms of different numbers differ. */
  lemma NatToStringInjective(m: nat, n: nat)
    requires NatToString(m) == NatToString(n)
    ensures m == n
  {
    NatToStringValue(m);
    NatToStringValue(n);
  }

  // ---------------------------------------------------------------------
  // Whitespace and trimming

  /** The characters that `String.prototype.trim` removes: WhiteSpace and LineTerminator. */
  predicate IsJsSpace(c: char) {
    || c == '\t' || c == '\n' || c == '\U{000B}' || c == '\U{000C}' || c == '\r' || c == ' '
    || c == '\U{00A0}' || c == '\U{1680}' || ('\U{2000}' <= c <= '\U{200A}')
    || c == '\U{2028}' || c == '\U{2029}' || c == '\U{202F}' || c == '\U{205F}'
    || c == '\U{3000}' || c == '\U{FEFF}'
  }

  /** Drops leading whitespace: the result starts with a non-space. */
  function TrimStart(s: string): (r: string)
    ensures r != [] ==> !IsJsSpace(r[0])
  {
    if s != [] && IsJsSpace(s[0]) then TrimStart(s[1..]) else s
  }

  /** TrimStart removes a run of leading spaces and keeps the rest. */
  lemma {:induction false} TrimStartDropsSpaces(s: string)
    ensures |TrimStart(s)| <= |s| && TrimStart(s) == s[|s| - |TrimStart(s)|..]
    ensures forall i :: 0 <= i < |s| - |TrimStart(s)| ==> IsJsSpace(s[i])
  {
    if s != [] && IsJsSpace(s[0]) {
      TrimStartDropsSpaces(s[1..]);
    }
  }

  /** Drops trailing whitespace: the result is a prefix and ends with a non-space. */
  function TrimEnd(s: string): (r: string)
    ensures |r| <= |s| && r == s[..|r|]
    ensures r != [] ==> !IsJsSpace(r[|r| - 1])
    ensures forall i :: |r| <= i < |s| ==> IsJsSpace(s[i])
    ensures s != [] && !IsJsSpace(s[0]) ==> r != []
  {
    if s != [] && IsJsSpace(s[|s| - 1]) then TrimEnd(s[..|s| - 1]) else s
  }

  /** `s.trim()`: empty exactly when s is all whitespace; otherwise neither end is a space. */
  function Trim(s: string): (r: string)
    ensures |r| <= |s|
    ensures r == [] <==> forall i :: 0 <= i < |s| ==> IsJsSpace(s[i])
    ensures r != [] ==> !IsJsSpace(r[0]) && !IsJsSpace(r[|r| - 1])
    ensures exists i, j ::
      && 0 <= i <= j <= |s| && r == s[i..j]
      && (forall k :: 0 <= k < i ==> IsJsSpace(s[k]))
      && (forall k :: j <= k < |s| ==> IsJsSpace(s[k]))
  {
    TrimEndOfTrimStart(s, TrimStart(s), TrimEnd(TrimStart(s)));
    TrimEnd(TrimStart(s))
  }

  /** Trimming both ends keeps a slice of s and removes only spaces around it. */
  lemma TrimEndOfTrimStart(s: string, t: string, r: string)
    requires t == TrimStart(s) && r == TrimEnd(t)
    ensures |r| <= |s|
    ensures r == [] <==> forall i :: 0 <= i < |s| ==> IsJsSpace(s[i])
    ensures r != [] ==> !IsJsSpace(r[0]) && !IsJsSpace(r[|r| - 1])
    ensures exists i, j ::
      && 0 <= i <= j <= |s| && r == s[i..j]
      && (forall k :: 0 <= k < i ==> IsJsSpace(s[k]))
      && (forall k :: j <= k < |s| ==> IsJsSpace(s[k]))
  {
    TrimStartDropsSpaces(s);
    var i := |s| - |t|;
    var j := i + |r|;
    assert t == s[i..];
    assert s[i..j] == r by {
      assert r == t[..|r|];
    }
    SuffixSpaces(s, t, i, |r|);
    TrimEmptyIff(s, t, r, i);
    if r != [] {
      assert r[0] == t[0];
    }
  }

  /** With only spaces before the suffix t, trimming t leaves nothing exactly when s is all spaces. */
  lemma TrimEmptyIff(s: string, t: string, r: string, i: nat)
    requires i <= |s| && t == s[i..] && r == TrimEnd(t)
    requires forall k :: 0 <= k < i ==> IsJsSpace(s[k])
    requires t != [] ==> !IsJsSpace(t[0])
    ensures r == [] <==> forall k :: 0 <= k < |s| ==> IsJsSpace(s[k])
  {
    if r == [] {
      SuffixSpaces(s, t, i, 0);
    } else {
      assert s[i] == t[0];
    }
  }

  /** Spaces at the end of a suffix of s are spaces at the end of s. */
  lemma SuffixSpaces(s: string, t: string, i: nat, m: nat)
    requires i <= |s| && t == s[i..] && m <= |t|
    requires forall k :: m <= k < |t| ==> IsJsSpace(t[k])
    ensures forall k :: i + m <= k < |s| ==> IsJsSpace(s[k])
  {
    forall k | i + m <= k < |s|
      ensures IsJsSpace(s[k])
    {
      assert s[k] == t[k - i];
    }
  }

  /** Trimming twice is trimming once. */
  lemma TrimIdempotent(s: string)
    ensures Trim(Trim(s)) == Trim(s)
  {
    var r := Trim(s);
    if r != [] {
      assert TrimStart(r) == r;
      assert TrimEnd(r) == r;
    }
  }

  // ---------------------------------------------------------------------
  // parseInt

  /** The longest prefix of decimal digits. */
  function DigitPrefix(s: string): (d: string)
    ensures |d| <= |s| && d == s[..|d|] && AllDigits(d)
    ensures |d| < |s| ==> !IsDigit(s[|d|])
  {
    if s != [] && IsDigit(s[0]) then [s[0]] + DigitPrefix(s[1..]) else []
  }

  /**
   * `parseInt(s, 10)`: skip leading whitespace, take an optional sign, then
   * the longest run of digits; NaN when there is no digit. Called without a
   * radix, `parseInt` also reads a "0x" or "0X" prefix as hexadecimal; this
   * decimal reading is used for those calls too.
   */
  function ParseInt(s: string): Number {
    ParseSigned(TrimStart(s))
  }

  /** `parseInt` after the leading whitespace: an optional sign, then the digits. */
  function ParseSigned(t: string): Number {
    var negative := |t| > 0 && t[0] == '-';
    var body := if |t| > 0 && (t[0] == '-' || t[0] == '+') then t[1..] else t;
    var digits := DigitPrefix(body);
    if digits == [] then NaN
    else Finite(if negative then -(DigitsValue(digits) as int) else DigitsValue(digits))
  }

  /** `parseInt(String(n), 10) == n`. */
  lemma ParseIntRoundTrip(n: int)
    ensures ParseInt(IntToString(n)) == Finite(n)
  {
    if n < 0 {
      IntToStringNegative(n);
      ParseIntNegativeString(-n);
    } else {
      ParseIntNatString(n);
    }
  }

  lemma IntToStringNegative(n: int)
    requires n < 0
    ensures IntToString(n) == "-" + NatToString(-n)
  {
  }

  lemma ParseIntNatString(n: nat)
    ensures ParseInt(NatToString(n)) == Finite(n)
  {
    NatToStringValue(n);
    ParseIntDigits(NatToString(n));
  }

  lemma ParseIntNegativeString(n: nat)
    ensures ParseInt("-" + NatToString(n)) == Finite(-(n as int))
  {
    var d := NatToString(n);
    NatToStringValue(n);
    assert d != [] && AllDigits(d);
    ParseIntNegative(d);
    assert ParseInt("-" + d) == Finite(-(DigitsValue(d) as int));
    assert DigitsValue(d) == n;
  }

  /** A run of digits parses as its value. */
  lemma ParseIntDigits(d: string)
    requires d != [] && AllDigits(d)
    ensures ParseInt(d) == Finite(DigitsValue(d))
  {
    assert IsDigit(d[0]);
    TrimStartNoSpace(d);
    assert DigitPrefix(d) == d by {
      DigitPrefixOfDigits(d);
    }
  }

  /** A minus sign followed by a run of digits parses as the negated value. */
  lemma ParseIntNegative(d: string)
    requires d != [] && AllDigits(d)
    ensures ParseInt("-" + d) == Finite(-(DigitsValue(d) as int))
  {
    var s := "-" + d;
    TrimStartNoSpace(s);
    assert DigitPrefix(s[1..]) == d by {
      assert s[1..] == d;
      DigitPrefixOfDigits(d);
    }
  }

  lemma TrimStartNoSpace(s: string)
    requires s != [] && !IsJsSpace(s[0])
    ensures TrimStart(s) == s
  {
  }

  lemma {:induction false} DigitPrefixOfDigits(s: string)
    requires AllDigits(s)
    ensures DigitPrefix(s) == s
  {
    if s != [] {
      DigitPrefixOfDigits(s[1..]);
    }
  }

  // ---------------------------------------------------------------------
  // toLowerCase and includes

  function LowerChar(c: char): char {
    if 'A' <= c <= 'Z' then (c as int + 32) as char else c
  }

  /** `s.toLowerCase()` on the ASCII letters. */
  function Lower(s: string): string {
    seq(|s|, i requires 0 <= i < |s| => LowerChar(s[i]))
  }

  predicate StartsWith(s: string, p: string) {
    |p| <= |s| && s[..|p|] == p
  }

  /** `s.includes(t)`. */
  predicate Contains(s: string, t: string)
    decreases |s|
  {
    StartsWith(s, t) || (s != [] && Contains(s[1..], t))
  }

  /** `includes` finds t exactly when t occurs at some position of s. */
  lemma {:induction false} ContainsAt(s: string, t: string, k: nat)
    requires k + |t| <= |s| && s[k..k + |t|] == t
    ensures Contains(s, t)
  {
    if k > 0 {
      assert s[1..][k - 1..k - 1 + |t|] == t;
      ContainsAt(s[1..], t, k - 1);
    }
  }

  // ---------------------------------------------------------------------
  // filter, find, findIndex

  /** `s.filter(keep)`: the kept elements, in order. */
  function Filter<T(!new)>(s: seq<T>, keep: T -> bool): (r: seq<T>)
    ensures |r| <= |s|
    ensures forall x :: x in r <==> x in s && keep(x)
  {
    if s == [] then [] else (if keep(s[0]) then [s[0]] else []) + Filter(s[1..], keep)
  }

  /** Filtering distributes over concatenation, so relative order is kept. */
  lemma {:induction false} FilterAppend<T(!new)>(a: seq<T>, b: seq<T>, keep: T -> bool)
    ensures Filter(a + b, keep) == Filter(a, keep) + Filter(b, keep)
  {
    if a != [] {
      var head := if keep(a[0]) then [a[0]] else [];
      assert (a + b)[0] == a[0];
      assert (a + b)[1..] == a[1..] + b;
      FilterAppend(a[1..], b, keep);
      calc {
        Filter(a + b, keep);
        head + Filter(a[1..] + b, keep);
        head + (Filter(a[1..], keep) + Filter(b, keep));
        (head + Filter(a[1..], keep)) + Filter(b, keep);
        Filter(a, keep) + Filter(b, keep);
      }
    } else {
      assert a + b == b;
    }
  }

  /** r is s with some elements deleted: the elements of r occur in s in the same order. */
  ghost predicate SubsequenceOf<T>(r: seq<T>, s: seq<T>)
    decreases |s|
  {
    r == [] || (s != [] && ((r[0] == s[0] && SubsequenceOf(r[1..], s[1..])) || SubsequenceOf(r, s[1..])))
  }

  /**
   * `filter` selects: the result is a subsequence of the input, and holds
   * every kept value as often as the input does and no other value.
   */
  lemma {:induction false} FilterSelects<T(!new)>(s: seq<T>, keep: T -> bool)
    ensures SubsequenceOf(Filter(s, keep), s)
    ensures forall x :: multiset(Filter(s, keep))[x] == if keep(x) then multiset(s)[x] else 0
  {
    FilterIsSubsequence(s, keep);
    FilterMultiplicity(s, keep);
  }

  lemma {:induction false} FilterIsSubsequence<T(!new)>(s: seq<T>, keep: T -> bool)
    ensures SubsequenceOf(Filter(s, keep), s)
  {
    if s != [] {
      var r := Filter(s, keep);
      var t := Filter(s[1..], keep);
      FilterIsSubsequence(s[1..], keep);
      assert s == [s[0]] + s[1..];
      if keep(s[0]) {
        assert r == [s[0]] + t;
        assert r[1..] == t;
      } else {
        assert r == t;
      }
    }
  }

  lemma {:induction false} FilterMultiplicity<T(!new)>(s: seq<T>, keep: T -> bool)
    ensures forall x :: multiset(Filter(s, keep))[x] == if keep(x) then multiset(s)[x] else 0
  {
    if s != [] {
      var r := Filter(s, keep);
      var t := Filter(s[1..], keep);
      FilterMultiplicity(s[1..], keep);
      assert s == [s[0]] + s[1..];
      assert multiset(s) == multiset{s[0]} + multiset(s[1..]);
      if keep(s[0]) {
        assert r == [s[0]] + t;
        assert multiset(r) == multiset{s[0]} + multiset(t);
      } else {
        assert r == t;
      }
    }
  }

  /** The positions of s whose element satisfies keep. */
  function Positions<T>(s: seq<T>, keep: T -> bool): set<int> {
    set i | 0 <= i < |s| && keep(s[i])
  }

  /** The length of a filter is the number of positions it keeps. */
  lemma {:induction false} FilterCount<T(!new)>(s: seq<T>, keep: T -> bool)
    ensures |Filter(s, keep)| == |Positions(s, keep)|
  {
    if s != [] {
      var n := |s| - 1;
      var front := s[..n];
      assert s == front + [s[n]];
      FilterAppend(front, [s[n]], keep);
      FilterCount(front, keep);
      CountStep(s, keep);
    }
  }

  lemma CountStep<T>(s: seq<T>, keep: T -> bool)
    requires s != []
    ensures |Positions(s, keep)| == |Positions(s[..|s| - 1], keep)| + (if keep(s[|s| - 1]) then 1 else 0)
  {
    var n := |s| - 1;
    var front := Positions(s[..n], keep);
    var all := Positions(s, keep);
    if keep(s[n]) {
      assert all == front + {n};
    } else {
      assert all == front;
    }
  }

  /** A filter that rejects nothing returns its input unchanged. */
  lemma {:induction false} FilterKeepsAll<T(!new)>(s: seq<T>, keep: T -> bool)
    requires forall i :: 0 <= i < |s| ==> keep(s[i])
    ensures Filter(s, keep) == s
  {
    if s != [] {
      FilterKeepsAll(s[1..], keep);
    }
  }

  /** A filter that keeps nothing returns the empty list. */
  lemma {:induction false} FilterKeepsNone<T(!new)>(s: seq<T>, keep: T -> bool)
    requires forall i :: 0 <= i < |s| ==> !keep(s[i])
    ensures Filter(s, keep) == []
  {
    if s != [] {
      FilterKeepsNone(s[1..], keep);
    }
  }

  /** `s.findIndex(p)`: the first index satisfying p, or none. */
  function FirstIndex<T>(s: seq<T>, p: T -> bool): (r: Option<nat>)
    ensures r.Some? ==> r.value < |s| && p(s[r.value]) && forall j :: 0 <= j < r.value ==> !p(s[j])
    ensures r.None? ==> forall j :: 0 <= j < |s| ==> !p(s[j])
  {
    if s == [] then None
    else if p(s[0]) then Some(0)
    else match FirstIndex(s[1..], p)
      case None => None
      case Some(k) => Some(k + 1)
  }

  /** `s.find(p)`: the first element satisfying p, or none. */
  function Find<T>(s: seq<T>, p: T -> bool): (r: Option<T>)
    ensures r.Some? <==> exists i :: 0 <= i < |s| && p(s[i])
    ensures r.Some? ==> p(r.value) && r.value in s
    ensures r.Some? ==> exists i :: 0 <= i < |s| && s[i] == r.value && forall j :: 0 <= j < i ==> !p(s[j])
  {
    match FirstIndex(s, p)
    case None => None
    case Some(i) => Some(s[i])
  }

  /** `s.map(f)`. */
  function Map<T, U>(s: seq<T>, f: T -> U): (r: seq<U>)
    ensures |r| == |s| && forall i :: 0 <= i < |s| ==> r[i] == f(s[i])
  {
    seq(|s|, i requires 0 <= i < |s| => f(s[i]))
  }
}
