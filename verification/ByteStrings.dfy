/**
 Byte strings, and the standard-library calls the engine makes on them: decimal
 printing and parsing, searching for a byte, and splitting at a separator.
 */
module ByteStrings {
  import opened Collections
  import opened Wrappers

  type byte = b: int | 0 <= b < 256
  type bytes = seq<byte>

  const SOH: byte := 1
  const EQUALS: byte := 61
  const PLUS: byte := 43
  const MINUS: byte := 45
  const ZERO: byte := 48
  const MAX_INT64: int := 0x7FFF_FFFF_FFFF_FFFF
  const MIN_INT64: int := -0x8000_0000_0000_0000

  /** Addition of two Go ints: 64 bits, two's complement. */
  function AddInt64(a: int, b: int): (sum: int)
    ensures MIN_INT64 <= a + b <= MAX_INT64 ==> sum == a + b
  {
    if a + b > MAX_INT64 then a + b - 0x1_0000_0000_0000_0000
    else if a + b < MIN_INT64 then a + b + 0x1_0000_0000_0000_0000
    else a + b
  }

  predicate IsDigit(b: byte) {
    48 <= b <= 57
  }

  predicate AllDigits(s: bytes) {
    forall i :: 0 <= i < |s| ==> IsDigit(s[i])
  }

  // ---- decimal numbers ----

  /** The decimal digits of n, most significant first, without leading zeros. */
  function Digits(n: nat): (s: bytes)
    ensures |s| >= 1 && AllDigits(s)
  {
    if n < 10 then [ZERO + n] else Digits(n / 10) + [ZERO + n % 10]
  }

  function DigitsValue(s: bytes): nat
    requires AllDigits(s)
  {
    if s == [] then 0
    else DigitsValue(s[..|s| - 1]) * 10 + (s[|s| - 1] - ZERO)
  }

  lemma {:induction false} DigitsRoundTrip(n: nat)
    ensures DigitsValue(Digits(n)) == n
  {
    if n < 10 {
      assert Digits(n)[..0] == [];
    } else {
      DigitsRoundTrip(n / 10);
      assert Digits(n)[..|Digits(n)| - 1] == Digits(n / 10);
    }
  }

  lemma {:induction false} DigitsLength(n: nat)
    ensures |Digits(n)| <= n / 10 + 1
  {
    if n < 10 {
    } else {
      DigitsLength(n / 10);
    }
  }

  /** strconv.Itoa, and the %d verb of fmt.Sprintf. */
  function Itoa(n: int): (s: bytes)
    ensures |s| >= 1
    ensures forall i :: 0 <= i < |s| ==> IsDigit(s[i]) || s[i] == MINUS
    ensures n >= 0 ==> AllDigits(s)
  {
    if n < 0 then [MINUS] + Digits(-n) else Digits(n)
  }

  /** The outcome of strconv.Atoi: a number, a syntax error, or a number outside 64 bits. */
  datatype Parsed = Number(n: int) | BadSyntax | OutOfRange(clamped: int)

  predicate IsSign(b: byte) {
    b == PLUS || b == MINUS
  }

  function FromDigits(negative: bool, digits: bytes): (r: Parsed)
    requires AllDigits(digits)
  {
    var magnitude: int := DigitsValue(digits);
    var n := if negative then -magnitude else magnitude;
    if n > MAX_INT64 then OutOfRange(MAX_INT64)
    else if n < MIN_INT64 then OutOfRange(MIN_INT64)
    else Number(n)
  }

  /** strconv.Atoi: an optional sign, then one or more decimal digits and nothing else. */
  function ParseInt(s: bytes): (r: Parsed) {
    var digits := if s != [] && IsSign(s[0]) then s[1..] else s;
    if digits == [] || !AllDigits(digits) then BadSyntax
    else FromDigits(s[0] == MINUS, digits)
  }

  /** strconv.Atoi where the caller stops on an error. */
  function Atoi(s: bytes): (r: Option<int>)
    ensures r.Some? ==> MIN_INT64 <= r.value <= MAX_INT64
  {
    match ParseInt(s)
    case Number(n) => Some(n)
    case _ => None
  }

  /** strconv.Atoi where the caller drops the error: zero on bad syntax, clamped when out of range. */
  function AtoiIgnoringError(s: bytes): (n: int)
    ensures MIN_INT64 <= n <= MAX_INT64
  {
    match ParseInt(s)
    case Number(n) => n
    case BadSyntax => 0
    case OutOfRange(clamped) => clamped
  }

  lemma {:induction false} FromDigitsOf(negative: bool, n: nat)
    requires n <= MAX_INT64 || (negative && n == -MIN_INT64)
    ensures FromDigits(negative, Digits(n)) == Number(if negative then -(n as int) else n)
  {
    DigitsRoundTrip(n);
  }

  lemma {:induction false} ParseIntItoa(n: int)
    requires MIN_INT64 <= n <= MAX_INT64
    ensures ParseInt(Itoa(n)) == Number(n)
  {
    FromDigitsOf(n < 0, if n < 0 then -n else n);
    if n < 0 {
      assert Itoa(n)[0] == MINUS && Itoa(n)[1..] == Digits(-n);
    } else {
      assert IsDigit(Itoa(n)[0]);
    }
  }

  lemma {:induction false} AtoiItoa(n: int)
    requires MIN_INT64 <= n <= MAX_INT64
    ensures ParseInt(Itoa(n)) == Number(n)
    ensures Atoi(Itoa(n)) == Some(n)
    ensures AtoiIgnoringError(Itoa(n)) == n
  {
    ParseIntItoa(n);
  }

  lemma {:induction false} ItoaInjective(a: int, b: int)
    requires MIN_INT64 <= a <= MAX_INT64 && MIN_INT64 <= b <= MAX_INT64
    requires Itoa(a) == Itoa(b)
    ensures a == b
  {
    AtoiItoa(a);
    AtoiItoa(b);
  }

  function Zeros(k: nat): (s: bytes)
    ensures |s| == k && AllDigits(s)
  {
    if k == 0 then [] else Zeros(k - 1) + [48]
  }

  /** The digits of n behind any number of zeros. */
  ghost predicate Numeral(s: bytes, n: nat) {
    exists k: nat :: s == Zeros(k) + Digits(n)
  }

  lemma {:induction false} ZerosValue(k: nat, digits: bytes)
    requires AllDigits(digits)
    ensures DigitsValue(Zeros(k) + digits) == DigitsValue(digits)
  {
    if digits != [] {
      ZerosValue(k, digits[..|digits| - 1]);
      var s := Zeros(k) + digits;
      assert s[..|s| - 1] == Zeros(k) + digits[..|digits| - 1];
    } else if k > 0 {
      ZerosValue(k - 1, []);
      assert Zeros(k) + [] == Zeros(k) && Zeros(k - 1) + [] == Zeros(k - 1);
      assert Zeros(k)[..k - 1] == Zeros(k - 1);
    }
  }

  lemma {:induction false} ZerosAppend(k: nat, n: nat, digit: byte)
    requires IsDigit(digit)
    ensures n > 0 ==> Zeros(k) + Digits(n) + [digit] == Zeros(k) + Digits(10 * n + digit - 48)
    ensures Zeros(k) + Digits(0) + [digit] == Zeros(k + 1) + Digits(digit - 48)
  {
    if n > 0 {
      assert (10 * n + digit - 48) / 10 == n;
    }
  }

  lemma {:induction false} ValueOfLast(init: bytes, last: byte)
    requires AllDigits(init) && IsDigit(last)
    ensures DigitsValue(init + [last]) == 10 * DigitsValue(init) + last - 48
  {
    assert (init + [last])[..|init|] == init;
  }

  lemma {:induction false} DigitsForm(s: bytes) returns (k: nat)
    requires s != [] && AllDigits(s)
    ensures s == Zeros(k) + Digits(DigitsValue(s))
  {
    var init, last := s[..|s| - 1], s[|s| - 1];
    InitAndLast(s);
    ValueOfLast(init, last);
    if init == [] {
      k := 0;
    } else {
      k := DigitsForm(init);
      ZerosAppend(k, DigitsValue(init), last);
      if DigitsValue(init) == 0 {
        k := k + 1;
      }
    }
  }

  lemma {:induction false} DigitsValueIff(s: bytes, n: nat)
    ensures s != [] && AllDigits(s) && DigitsValue(s) == n <==> Numeral(s, n)
  {
    if s != [] && AllDigits(s) {
      var k := DigitsForm(s);
    }
    if Numeral(s, n) {
      var k: nat :| s == Zeros(k) + Digits(n);
      ZerosValue(k, Digits(n));
      DigitsRoundTrip(n);
    }
  }

  /** strconv.Atoi accepts the numerals of 64 bits, with leading zeros and either sign, and nothing else. */
  lemma {:induction false} AtoiIff(s: bytes, n: int)
    ensures Atoi(s) == Some(n) <==>
      && -0x8000_0000_0000_0000 <= n <= 0x7FFF_FFFF_FFFF_FFFF
      && ((n >= 0 && (Numeral(s, n) || (s != [] && s[0] == 43 && Numeral(s[1..], n))))
          || (n <= 0 && s != [] && s[0] == 45 && Numeral(s[1..], -n)))
  {
    if n >= 0 {
      DigitsValueIff(s, n);
    }
    if s != [] {
      if n >= 0 {
        DigitsValueIff(s[1..], n);
      }
      if n <= 0 {
        DigitsValueIff(s[1..], -n);
      }
    }
  }

  /** A caller that drops the error works with zero, or with the largest number if there were too many digits. */
  lemma {:induction false} ErrorDropped(s: bytes, n: int)
    ensures Atoi(s) == Some(n) ==> AtoiIgnoringError(s) == n
    ensures n > 0x7FFF_FFFF_FFFF_FFFF && Numeral(s, n) ==> AtoiIgnoringError(s) == 0x7FFF_FFFF_FFFF_FFFF
    ensures s == [] || !IsDigit(s[|s| - 1]) ==> AtoiIgnoringError(s) == 0
  {
    if n >= 0 {
      DigitsValueIff(s, n);
    }
    if s != [] && !IsDigit(s[|s| - 1]) && |s| > 1 {
      assert s[1..][|s| - 2] == s[|s| - 1];
    }
  }

  // ---- searching and splitting ----

  /** bytes.IndexByte and strings.IndexByte: the first position of b in s, or -1. */
  function IndexByte(s: bytes, b: byte): (i: int)
    ensures -1 <= i < |s|
    ensures i >= 0 ==> s[i] == b && b !in s[..i]
    ensures i < 0 ==> b !in s
  {
    if s == [] then -1
    else if s[0] == b then 0
    else
      var j := IndexByte(s[1..], b);
      if j < 0 then -1
      else
        assert s[..j + 1] == [s[0]] + s[1..][..j];
        j + 1
  }

  lemma {:induction false} IndexByteAt(pre: bytes, b: byte, post: bytes)
    requires b !in pre
    ensures IndexByte(pre + [b] + post, b) == |pre|
  {
    var s := pre + [b] + post;
    var i := IndexByte(s, b);
    assert s[|pre|] == b;
  }

  /** strings.Split at a one-byte separator. */
  function Split(s: bytes, sep: byte): (fields: seq<bytes>)
    ensures |fields| >= 1
    decreases |s|
  {
    var i := IndexByte(s, sep);
    if i < 0 then [s] else [s[..i]] + Split(s[i + 1..], sep)
  }

  /** No part holds the separator. */
  lemma {:induction false} SplitClean(s: bytes, sep: byte)
    ensures forall i :: 0 <= i < |Split(s, sep)| ==> sep !in Split(s, sep)[i]
    decreases |s|
  {
    var i := IndexByte(s, sep);
    if i < 0 {
    } else {
      var rest := Split(s[i + 1..], sep);
      SplitClean(s[i + 1..], sep);
      assert Split(s, sep) == [s[..i]] + rest;
      forall k | 0 <= k < |rest| + 1 ensures sep !in ([s[..i]] + rest)[k] {
        assert k > 0 ==> ([s[..i]] + rest)[k] == rest[k - 1];
      }
    }
  }

  /** strings.Join with a one-byte separator. */
  function Join(fields: seq<bytes>, sep: byte): bytes
    requires fields != []
  {
    if |fields| == 1 then fields[0] else fields[0] + [sep] + Join(fields[1..], sep)
  }

  lemma {:induction false} JoinCons(field: bytes, rest: seq<bytes>, sep: byte)
    requires rest != []
    ensures Join([field] + rest, sep) == field + [sep] + Join(rest, sep)
  {
    assert ([field] + rest)[1..] == rest;
  }

  /** The parts, joined, are the text. */
  lemma {:induction false} JoinSplit(s: bytes, sep: byte)
    ensures Join(Split(s, sep), sep) == s
    decreases |s|
  {
    var i := IndexByte(s, sep);
    if i < 0 {
    } else {
      JoinSplit(s[i + 1..], sep);
      JoinCons(s[..i], Split(s[i + 1..], sep), sep);
      assert s == s[..i] + [sep] + s[i + 1..];
    }
  }

  lemma {:induction false} SplitCons(field: bytes, sep: byte, rest: bytes)
    requires sep !in field
    ensures Split(field + [sep] + rest, sep) == [field] + Split(rest, sep)
  {
    IndexByteAt(field, sep, rest);
    var s := field + [sep] + rest;
    assert s[..|field|] == field;
    assert s[|field| + 1..] == rest;
  }

  function Sum(s: bytes): nat {
    if s == [] then 0 else Sum(s[..|s| - 1]) + s[|s| - 1]
  }

  lemma {:induction false} SumConcat(a: bytes, b: bytes)
    ensures Sum(a + b) == Sum(a) + Sum(b)
  {
    if b == [] {
      assert a + b == a;
    } else {
      SumConcat(a, b[..|b| - 1]);
      assert (a + b)[..|a + b| - 1] == a + b[..|b| - 1];
    }
  }

  lemma {:induction false} SumCons(b: byte, s: bytes)
    ensures Sum([]) == 0 && Sum([b] + s) == b + Sum(s)
  {
    SumConcat([b], s);
    assert [b][..0] == [];
  }

  function Flatten(parts: seq<bytes>): bytes {
    if parts == [] then [] else parts[0] + Flatten(parts[1..])
  }

  lemma {:induction false} FlattenConcat(a: seq<bytes>, b: seq<bytes>)
    ensures Flatten(a + b) == Flatten(a) + Flatten(b)
  {
    if a == [] {
      assert a + b == b;
    } else {
      FlattenConcat(a[1..], b);
      assert (a + b)[0] == a[0] && (a + b)[1..] == a[1..] + b;
      ConcatAssociative(a[0], Flatten(a[1..]), Flatten(b));
    }
  }
}
