/** The slice of PHP's runtime semantics the validators and the service rely on:
    loosely typed values, ordered arrays, `empty()`, `is_numeric()`, loose `==`,
    string conversion of integers, `strtolower`, `strpos` and `explode`.
    Strings are byte strings; a byte is modelled as a `char`. */
module Php {

  datatype Option<T> = None | Some(value: T)

  /** An array key. PHP keeps integer keys and string keys apart. */
  datatype Key = IntKey(i: int) | StrKey(s: string)

  /** A PHP value. An array is an ordered sequence of (key, value) entries;
      floats, objects and resources are not part of this model. */
  datatype Value =
    | Null
    | Bool(b: bool)
    | Int(i: int)
    | Str(s: string)
    | Arr(entries: seq<(Key, Value)>)

  /** The keys of an array, in iteration order. */
  function Keys(es: seq<(Key, Value)>): (ks: seq<Key>)
    ensures |ks| == |es|
    ensures forall i :: 0 <= i < |es| ==> ks[i] == es[i].0
  {
    if es == [] then [] else [es[0].0] + Keys(es[1..])
  }

  /** A well-formed PHP array never holds the same key twice. */
  predicate DistinctKeys(es: seq<(Key, Value)>) {
    forall i, j :: 0 <= i < j < |es| ==> es[i].0 != es[j].0
  }

  /** `$a[$k]` on an array: the value stored under `k`, if any. */
  function Lookup(es: seq<(Key, Value)>, k: Key): (r: Option<Value>)
    ensures r.None? <==> forall i :: 0 <= i < |es| ==> es[i].0 != k
    ensures r.Some? ==>
      exists i :: 0 <= i < |es| && es[i] == (k, r.value) && forall j :: 0 <= j < i ==> es[j].0 != k
  {
    if es == [] then None
    else if es[0].0 == k then Some(es[0].1)
    else
      var r := Lookup(es[1..], k);
      assert r.Some? ==> exists i :: 1 <= i < |es| && es[i] == (k, r.value) && forall j :: 0 <= j < i ==> es[j].0 != k by {
        if r.Some? {
          var i :| 0 <= i < |es[1..]| && es[1..][i] == (k, r.value) && forall j :: 0 <= j < i ==> es[1..][j].0 != k;
          assert es[i + 1] == (k, r.value);
          forall j | 0 <= j < i + 1 ensures es[j].0 != k {
            if j > 0 { assert es[j] == es[1..][j - 1]; }
          }
        }
      }
      r
  }

  /** The first entry with key `k` gives the value found under `k`. */
  lemma {:induction false} LookupFirst(es: seq<(Key, Value)>, i: nat, k: Key)
    requires i < |es| && es[i].0 == k
    requires forall j :: 0 <= j < i ==> es[j].0 != k
    ensures Lookup(es, k) == Some(es[i].1)
  {
    if i > 0 {
      assert es[0].0 != k;
      LookupFirst(es[1..], i - 1, k);
    }
  }

  /** The two-element list `[a, b]`, keyed 0 and 1. */
  function Pair(a: Value, b: Value): Value {
    Arr([(IntKey(0), a), (IntKey(1), b)])
  }

  /** Destructuring `[$x, $y] = [a, b]` gives back `a` and `b`. */
  lemma PairIndex(a: Value, b: Value)
    ensures Index(Pair(a, b), IntKey(0)) == a
    ensures Index(Pair(a, b), IntKey(1)) == b
  {
    LookupFirst(Pair(a, b).entries, 0, IntKey(0));
    LookupFirst(Pair(a, b).entries, 1, IntKey(1));
  }

  /** `$v[$k]` where a missing key, or a `$v` that is not an array, reads as
      null: the value `empty()`, `isset()` and list destructuring see. */
  function Index(v: Value, k: Key): (r: Value)
    ensures v.Arr? && (exists i :: 0 <= i < |v.entries| && v.entries[i].0 == k) ==> Lookup(v.entries, k) == Some(r)
    ensures !v.Arr? ==> r == Null
  {
    if v.Arr? then
      match Lookup(v.entries, k)
      case Some(x) => x
      case None => Null
    else Null
  }

  /** PHP's `empty()`: null, false, 0, "", "0" and the empty array. */
  predicate IsEmpty(v: Value) {
    match v
    case Null => true
    case Bool(b) => !b
    case Int(i) => i == 0
    case Str(s) => s == "" || s == "0"
    case Arr(es) => es == []
  }

  /** Conversion to bool, which for these values is the negation of `empty()`. */
  predicate ToBool(v: Value) {
    !IsEmpty(v)
  }

  predicate IsDigit(c: char) {
    '0' <= c <= '9'
  }

  predicate AllDigits(s: string) {
    forall i :: 0 <= i < |s| ==> IsDigit(s[i])
  }

  function DigitValue(c: char): nat
    requires IsDigit(c)
  {
    (c as int) - ('0' as int)
  }

  /** The number of leading decimal digits of `s`. */
  function DigitPrefix(s: string): (n: nat)
    ensures n <= |s| && AllDigits(s[..n])
    ensures n < |s| ==> !IsDigit(s[n])
  {
    if s == [] || !IsDigit(s[0]) then 0
    else
      var n := 1 + DigitPrefix(s[1..]);
      assert s[..n] == [s[0]] + s[1..][..n - 1];
      n
  }

  /** The unsigned numeric strings: `12`, `12.`, `12.5` and `.5`. */
  predicate UnsignedNumeric(s: string) {
    var n := DigitPrefix(s);
    if n == |s| then n > 0
    else s[n] == '.' && AllDigits(s[n + 1..]) && (n > 0 || n + 1 < |s|)
  }

  /** The numeric strings `is_numeric()` accepts, restricted to an optional sign
      and an integer or decimal literal. */
  predicate NumericString(s: string) {
    if |s| > 0 && (s[0] == '+' || s[0] == '-') then UnsignedNumeric(s[1..]) else UnsignedNumeric(s)
  }

  /** PHP's `is_numeric()` on the values of this model. */
  predicate IsNumeric(v: Value) {
    match v
    case Int(_) => true
    case Str(s) => NumericString(s)
    case _ => false
  }

  /** The value of a string of decimal digits, read left to right. */
  function DigitsValue(ds: string): nat
    requires AllDigits(ds)
  {
    if ds == [] then 0 else DigitsValue(ds[..|ds| - 1]) * 10 + DigitValue(ds[|ds| - 1])
  }

  /** The value of the digits after a decimal point. */
  function FractionValue(ds: string): real
    requires AllDigits(ds)
  {
    if ds == [] then 0.0 else (DigitValue(ds[0]) as real + FractionValue(ds[1..])) / 10.0
  }

  function UnsignedValue(s: string): real
    requires UnsignedNumeric(s)
  {
    var n := DigitPrefix(s);
    DigitsValue(s[..n]) as real + if n == |s| then 0.0 else FractionValue(s[n + 1..])
  }

  /** The number a numeric string denotes. */
  function NumericValue(s: string): real
    requires NumericString(s)
  {
    if |s| > 0 && s[0] == '-' then -UnsignedValue(s[1..])
    else if |s| > 0 && s[0] == '+' then UnsignedValue(s[1..])
    else UnsignedValue(s)
  }

  /** The number a numeric value (an int or a numeric string) denotes. */
  function NumberOf(v: Value): real
    requires IsNumeric(v)
  {
    match v
    case Int(i) => i as real
    case Str(s) => NumericValue(s)
  }

  function DigitChar(d: nat): (c: char)
    requires d < 10
    ensures IsDigit(c) && DigitValue(c) == d
  {
    ('0' as int + d) as char
  }

  /** The decimal spelling of a natural number, without leading zeros. */
  function NatToString(n: nat): (s: string)
    ensures |s| > 0 && AllDigits(s)
    ensures |s| > 1 ==> s[0] != '0'
  {
    if n < 10 then [DigitChar(n)] else NatToString(n / 10) + [DigitChar(n % 10)]
  }

  /** PHP's conversion of an int to a string. */
  function IntToString(i: int): string {
    if i < 0 then "-" + NatToString(-i) else NatToString(i)
  }

  lemma {:induction false} NatToStringValue(n: nat)
    ensures DigitsValue(NatToString(n)) == n
  {
    if n >= 10 {
      var s := NatToString(n);
      NatToStringValue(n / 10);
      assert s[..|s| - 1] == NatToString(n / 10);
    }
  }

  /** Round trip: the decimal spelling of an int is a numeric string denoting that int. */
  lemma IntToStringNumeric(i: int)
    ensures NumericString(IntToString(i))
    ensures NumericValue(IntToString(i)) == i as real
  {
    var n: nat := if i < 0 then -i else i;
    var d := NatToString(n);
    assert DigitPrefix(d) == |d| by { DigitPrefixOfDigits(d); }
    assert d[..|d|] == d;
    NatToStringValue(n);
    if i < 0 {
      assert IntToString(i)[1..] == d;
    }
  }

  lemma {:induction false} DigitPrefixOfDigits(s: string)
    requires AllDigits(s)
    ensures DigitPrefix(s) == |s|
  {
    if s != [] { DigitPrefixOfDigits(s[1..]); }
  }

  /** PHP's conversion of a value to a string, as in `"%{$v}%"`. */
  function ToStr(v: Value): string {
    match v
    case Null => ""
    case Bool(b) => if b then "1" else ""
    case Int(i) => IntToString(i)
    case Str(s) => s
    case Arr(_) => "Array"
  }

  /** The text of an array key where it is interpolated into a string. */
  function KeyText(k: Key): string {
    match k
    case IntKey(i) => IntToString(i)
    case StrKey(s) => s
  }

  /** PHP 8's loose comparison `==`. Two arrays are compared structurally, a
      simplification of PHP's entry-wise loose comparison. */
  predicate LooseEquals(a: Value, b: Value) {
    match (a, b)
    case (Bool(x), _) => x == ToBool(b)
    case (_, Bool(y)) => ToBool(a) == y
    case (Null, Null) => true
    case (Null, Str(t)) => t == ""
    case (Str(s), Null) => s == ""
    case (Null, _) => !ToBool(b)
    case (_, Null) => !ToBool(a)
    case (Int(x), Int(y)) => x == y
    case (Int(x), Str(t)) => if NumericString(t) then x as real == NumericValue(t) else IntToString(x) == t
    case (Str(s), Int(y)) => if NumericString(s) then NumericValue(s) == y as real else s == IntToString(y)
    case (Str(s), Str(t)) =>
      if NumericString(s) && NumericString(t) then NumericValue(s) == NumericValue(t) else s == t
    case (Arr(x), Arr(y)) => x == y
    case _ => false
  }

  /** Loose comparison holds between a value and itself. */
  lemma LooseEqualsReflexive(a: Value)
    ensures LooseEquals(a, a)
  {
  }

  /** Loose comparison does not depend on the order of its operands. */
  lemma LooseEqualsSymmetric(a: Value, b: Value)
    ensures LooseEquals(a, b) == LooseEquals(b, a)
  {
  }

  /** `strpos($h, $c)` for a one-character needle: the first position, or
      false (`None`) when the character does not occur. */
  function Strpos(h: string, c: char): (r: Option<nat>)
    ensures r.None? <==> c !in h
    ensures r.Some? ==> r.value < |h| && h[r.value] == c && c !in h[..r.value]
  {
    if h == [] then None
    else if h[0] == c then Some(0)
    else
      match Strpos(h[1..], c)
      case None => None
      case Some(p) =>
        assert h[..p + 1] == [h[0]] + h[1..][..p];
        Some(p + 1)
  }

  /** PHP's `$r >= $n` where `$r` is the result of `strpos`. When `$r` is false
      the comparison is between booleans, `false >= (bool)$n`. */
  predicate StrposAtLeast(r: Option<nat>, n: int) {
    match r
    case Some(p) => p >= n
    case None => n == 0
  }

  /** `$r >= 0` holds whatever `strpos` returned. */
  lemma StrposAtLeastZero(h: string, c: char)
    ensures StrposAtLeast(Strpos(h, c), 0)
  {
  }

  predicate IsUpperAscii(c: char) {
    'A' <= c <= 'Z'
  }

  predicate IsLowerAscii(c: char) {
    'a' <= c <= 'z'
  }

  function LowerChar(c: char): char {
    if IsUpperAscii(c) then (c as int + 32) as char else c
  }

  function UpperChar(c: char): char {
    if IsLowerAscii(c) then (c as int - 32) as char else c
  }

  /** PHP 8's `strtolower`, which maps only the ASCII letters A-Z. */
  function Lower(s: string): (r: string)
    ensures |r| == |s|
    ensures forall i :: 0 <= i < |s| ==> r[i] == LowerChar(s[i])
  {
    if s == [] then [] else [LowerChar(s[0])] + Lower(s[1..])
  }

  /** The number of occurrences of `c` in `s`. */
  function Occurrences(s: string, c: char): nat {
    if s == [] then 0 else (if s[0] == c then 1 else 0) + Occurrences(s[1..], c)
  }

  /** `explode($c, $s)` for a one-character delimiter: the pieces between the
      delimiters, so an empty string gives one empty piece. */
  function Explode(c: char, s: string): (ps: seq<string>)
    ensures |ps| == Occurrences(s, c) + 1
    ensures forall i :: 0 <= i < |ps| ==> c !in ps[i]
  {
    if s == [] then [[]]
    else
      var rest := Explode(c, s[1..]);
      if s[0] == c then [[]] + rest else [[s[0]] + rest[0]] + rest[1..]
  }

  /** `implode($c, $ps)`. */
  function Implode(c: char, ps: seq<string>): string
    requires |ps| > 0
  {
    if |ps| == 1 then ps[0] else ps[0] + [c] + Implode(c, ps[1..])
  }

  /** Joining the pieces of `explode` with the delimiter gives the string back. */
  lemma {:induction false} ImplodeExplode(c: char, s: string)
    ensures Implode(c, Explode(c, s)) == s
  {
    if s != [] {
      ImplodeExplode(c, s[1..]);
      var rest := Explode(c, s[1..]);
      if s[0] != c {
        var ps := [[s[0]] + rest[0]] + rest[1..];
        if |rest| > 1 {
          assert ps[1..] == rest[1..];
          assert Implode(c, rest) == rest[0] + [c] + Implode(c, rest[1..]);
        }
      }
    }
  }

  /** Splitting pieces free of the delimiter after joining them gives the pieces back. */
  lemma {:induction false} ExplodeImplode(c: char, ps: seq<string>)
    requires |ps| > 0
    requires forall i :: 0 <= i < |ps| ==> c !in ps[i]
    ensures Explode(c, Implode(c, ps)) == ps
  {
    if |ps| == 1 {
      ExplodePiece(c, ps[0], []);
      assert ps[0] + [] == ps[0];
      assert [ps[0]] == ps;
    } else {
      ExplodeImplode(c, ps[1..]);
      var t := [c] + Implode(c, ps[1..]);
      assert t[1..] == Implode(c, ps[1..]);
      var e := Explode(c, t);
      assert e == [[]] + ps[1..];
      ExplodePiece(c, ps[0], t);
      assert Implode(c, ps) == ps[0] + t;
      JoinFirstPiece(Explode(c, Implode(c, ps)), ps, e);
    }
  }

  /** The last step of `ExplodeImplode`: the first piece grows by the empty head of the rest. */
  lemma JoinFirstPiece(r: seq<string>, ps: seq<string>, e: seq<string>)
    requires |ps| > 0 && |e| > 0 && e[0] == [] && e[1..] == ps[1..]
    requires r == [ps[0] + e[0]] + e[1..]
    ensures r == ps
  {
    assert ps[0] + e[0] == ps[0];
    assert [ps[0]] + ps[1..] == ps;
  }

  lemma {:induction false} ExplodePiece(c: char, p: string, t: string)
    requires c !in p
    requires t == [] || t[0] == c
    ensures Explode(c, p + t) == [p + Explode(c, t)[0]] + Explode(c, t)[1..]
  {
    if p != [] {
      ExplodePiece(c, p[1..], t);
      assert (p + t)[1..] == p[1..] + t;
      assert [p[0]] + (p[1..] + Explode(c, t)[0]) == p + Explode(c, t)[0];
    } else {
      var e := Explode(c, t);
      assert p + t == t;
      assert p + e[0] == e[0];
      assert [e[0]] + e[1..] == e;
    }
  }

  /** A string PHP turns into an integer key when it indexes an array: the
      canonical decimal spelling of an integer ("0", "42", "-7", but not "07" or "-0"). */
  predicate CanonicalInt(s: string) {
    if s == "0" then true
    else
      var digits := if |s| > 0 && s[0] == '-' then s[1..] else s;
      |digits| > 0 && AllDigits(digits) && digits[0] != '0'
  }

  /** The key `$a[$s]` uses. */
  function ArrayKey(s: string): Key {
    if CanonicalInt(s) then
      if s[0] == '-' then IntKey(-(DigitsValue(s[1..]) as int)) else IntKey(DigitsValue(s))
    else StrKey(s)
  }

  /** The decimal spelling of an int indexes the array under that int. */
  lemma ArrayKeyOfInt(i: int)
    ensures ArrayKey(IntToString(i)) == IntKey(i)
  {
    var n: nat := if i < 0 then -i else i;
    NatToStringValue(n);
    if i < 0 {
      assert IntToString(i)[1..] == NatToString(n);
    }
  }
}
