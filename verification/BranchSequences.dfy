/**
 NyseBranchSeqGenerator: order ids made of a three-letter branch and a four-digit number,
 numbered so that reserved branches and number 0000 are never used.
 */
module BranchSequences {
  import opened Collections
  import opened Wrappers

  // ---- branches and codes ----

  /** The reserved branches HMQ, QQQ, RRR, TTT, YYY, ZYX, ZYY, ZYZ and ZZZ, counting AAA as 0. */
  const RESERVED: seq<int> := [5060, 11248, 11951, 13357, 16872, 17547, 17548, 17549, 17575]

  /** The ones that get_nth_id skips; ZZZ is the last branch of all. */
  const SKIPPED: seq<int> := [5060, 11248, 11951, 13357, 16872, 17547, 17548, 17549]
  const LAST_BRANCH: int := 17575

  function LetterValue(c: char): int {
    c as int - 'A' as int
  }

  function BranchCode(letters: string): int
    requires |letters| == 3
  {
    (LetterValue(letters[0]) * 26 + LetterValue(letters[1])) * 26 + LetterValue(letters[2])
  }

  lemma {:induction false} ReservedCodes()
    ensures RESERVED == [BranchCode("HMQ"), BranchCode("QQQ"), BranchCode("RRR"), BranchCode("TTT"), BranchCode("YYY"),
                         BranchCode("ZYX"), BranchCode("ZYY"), BranchCode("ZYZ"), BranchCode("ZZZ")]
  {
  }

  /** The code of an id: 10000 numbers to a branch. */
  function IdCode(branch: int, number: int): int {
    branch * 10000 + number
  }

  lemma {:induction false} IdCodeParts(branch: int, number: int)
    requires 0 <= number < 10000
    ensures IdCode(branch, number) / 10000 == branch && IdCode(branch, number) % 10000 == number
  {
  }

  predicate Sorted(branches: seq<int>) {
    forall i, j :: 0 <= i < j < |branches| ==> branches[i] < branches[j]
  }

  /** How many of the listed branches lie in [low, high). */
  function CountIn(low: int, high: int, branches: seq<int>): nat {
    if branches == [] then 0
    else (if low <= branches[0] < high then 1 else 0) + CountIn(low, high, branches[1..])
  }

  lemma {:induction false} CountInConcat(low: int, high: int, a: seq<int>, b: seq<int>)
    ensures CountIn(low, high, a + b) == CountIn(low, high, a) + CountIn(low, high, b)
  {
    if a == [] {
      assert a + b == b;
    } else {
      assert (a + b)[1..] == a[1..] + b;
      CountInConcat(low, high, a[1..], b);
    }
  }

  lemma {:induction false} CountInNone(low: int, high: int, branches: seq<int>)
    requires forall i :: 0 <= i < |branches| ==> branches[i] < low || high <= branches[i]
    ensures CountIn(low, high, branches) == 0
  {
    if branches == [] {
    } else {
      CountInNone(low, high, branches[1..]);
    }
  }

  /** A longer range holds at least as many branches, and at most one more for each further branch. */
  lemma {:induction false} CountInGrows(low: int, high: int, more: nat, branches: seq<int>)
    requires Sorted(branches)
    ensures CountIn(low, high, branches) <= CountIn(low, high + more, branches) <= CountIn(low, high, branches) + more
  {
    if more == 0 {
    } else {
      CountInGrows(low, high, more - 1, branches);
      CountInNext(low, high + more - 1, branches);
    }
  }

  lemma {:induction false} CountInNext(low: int, high: int, branches: seq<int>)
    requires Sorted(branches)
    ensures CountIn(low, high + 1, branches) ==
      CountIn(low, high, branches) + if low <= high && high in branches then 1 else 0
  {
    if branches == [] {
    } else {
      CountInNext(low, high, branches[1..]);
      if branches[0] == high {
        assert forall i :: 0 <= i < |branches[1..]| ==> branches[1..][i] == branches[i + 1];
        assert high !in branches[1..];
      }
    }
  }

  // ---- get_total_num_of_available_ids ----

  /** The loop over the reserved branches. */
  function CountSkips(begin: int, end: int, branches: seq<int>, skips: int): int {
    if branches == [] then skips
    else if begin > branches[0] * 10000 + 9999 then CountSkips(begin, end, branches[1..], skips)
    else if end > branches[0] * 10000 then CountSkips(begin, end, branches[1..], skips + 9999)
    else skips
  }

  function Total(begin: int, end: int): int {
    end - begin - CountSkips(begin, end, RESERVED, (end - begin) / 10000)
  }

  /** A reserved branch takes 9999 ids away if it lies in the range. */
  lemma {:induction false} CountSkipsIs(low: int, branch: int, number: int, branches: seq<int>, skips: int)
    requires 0 < number < 10000 && Sorted(branches)
    ensures CountSkips(low * 10000, IdCode(branch, number), branches, skips) ==
      skips + 9999 * CountIn(low, branch + 1, branches)
  {
    if branches == [] {
    } else {
      if low > branches[0] {
        CountSkipsIs(low, branch, number, branches[1..], skips);
      } else if branch >= branches[0] {
        CountSkipsIs(low, branch, number, branches[1..], skips + 9999);
      } else {
        CountInNone(low, branch + 1, branches);
      }
    }
  }

  /** How many unlisted branches lie in [low, branch], less one. */
  function RankAmong(low: int, branch: int, branches: seq<int>): int {
    branch - low - CountIn(low, branch + 1, branches)
  }

  /** How many usable branches lie in [low, branch], less one. */
  function Rank(low: int, branch: int): int {
    RankAmong(low, branch, RESERVED)
  }

  lemma {:induction false} RankGrows(low: int, a: int, b: int, branches: seq<int>)
    requires low <= a <= b && Sorted(branches)
    ensures RankAmong(low, a, branches) <= RankAmong(low, b, branches)
    ensures a < b && b !in branches ==> RankAmong(low, a, branches) < RankAmong(low, b, branches)
  {
    CountInGrows(low, a + 1, b - a, branches);
    if a < b {
      CountInGrows(low, a + 1, b - a - 1, branches);
      CountInNext(low, b, branches);
    }
  }

  /** How many ids up to the given one: 9999 for each usable branch before it, and its own number. */
  lemma {:induction false} TotalIs(low: int, branch: int, number: int)
    requires 0 < number < 10000
    ensures Total(low * 10000, IdCode(branch, number)) == Rank(low, branch) * 9999 + number
  {
    IdCodeParts(branch - low, number);
    assert IdCode(branch, number) - low * 10000 == IdCode(branch - low, number);
    CountSkipsIs(low, branch, number, RESERVED, branch - low);
  }

  // ---- get_nth_id ----

  /** idx_skipped_by_min_: how many of the first five reserved branches lie below, or 8 past ZYZ. */
  function SkippedByMin(low: int): nat {
    if low > RESERVED[7] then 8
    else if low > RESERVED[4] then 5
    else if low > RESERVED[3] then 4
    else if low > RESERVED[2] then 3
    else if low > RESERVED[1] then 2
    else if low > RESERVED[0] then 1
    else 0
  }

  /** The loop of get_nth_id over the given branches, and what follows it. */
  function SkipReserved(ret: int, branches: seq<int>): int
    decreases |branches|
  {
    if branches == [] then
      if ret < RESERVED[5] * 10000 then ret
      else if ret < RESERVED[8] * 10000 then ret + 30000
      else -1
    else if ret < branches[0] * 10000 then ret
    else SkipReserved(ret + 10000, branches[1..])
  }

  function NthId(min: int, skippedByMin: nat, n: int): int
    requires skippedByMin <= 5 || skippedByMin == 8
  {
    var ret := n + (n - 1) / 9999 + min;
    if skippedByMin == 8 then ret else SkipReserved(ret, RESERVED[skippedByMin..5])
  }

  /** The same on branches. */
  function SkipBranches(branch: int, branches: seq<int>): (b: int)
    ensures b >= branch
    decreases |branches|
  {
    if branches == [] then if branch < RESERVED[5] then branch else branch + 3
    else if branch < branches[0] then branch
    else SkipBranches(branch + 1, branches[1..])
  }

  lemma {:induction false} SkipOnBranches(branch: int, number: int, branches: seq<int>)
    requires 0 < number < 10000 && SkipBranches(branch, branches) < LAST_BRANCH
    ensures SkipReserved(IdCode(branch, number), branches) == IdCode(SkipBranches(branch, branches), number)
    decreases |branches|
  {
    if branches == [] || branch < branches[0] {
    } else {
      SkipOnBranches(branch + 1, number, branches[1..]);
    }
  }

  /** The branch of the k-th block of 9999 ids. */
  function NthBranch(low: int, k: int): int {
    if SkippedByMin(low) == 8 then low + k else SkipBranches(low + k, RESERVED[SkippedByMin(low)..5])
  }

  /** Skipping moves a branch past the listed ones and ZYX, ZYY, ZYZ up to the result, and never onto one. */
  lemma {:induction false} SkipBranchesIs(low: int, branch: int, branches: seq<int>, tail: seq<int>)
    requires tail == SKIPPED[5..]
    requires Sorted(branches) && forall i :: 0 <= i < |branches| ==> low <= branches[i] < SKIPPED[5]
    requires low <= SKIPPED[5]
    ensures var b := SkipBranches(branch, branches);
      && b == branch + CountIn(low, b + 1, branches) + CountIn(low, b + 1, tail)
      && b !in branches && b !in tail
    decreases |branches|
  {
    var b := SkipBranches(branch, branches);
    if branches == [] {
      LastThree(low, b + 1, tail);
    } else if branch < branches[0] {
      CountInNone(low, b + 1, branches);
      LastThree(low, b + 1, tail);
    } else {
      SkipBranchesIs(low, branch + 1, branches[1..], tail);
    }
  }

  lemma {:induction false} LastThree(low: int, high: int, tail: seq<int>)
    requires tail == SKIPPED[5..] && low <= SKIPPED[5]
    ensures tail == [SKIPPED[5], SKIPPED[6], SKIPPED[7]]
    ensures high <= SKIPPED[5] ==> CountIn(low, high, tail) == 0
    ensures high > SKIPPED[7] ==> CountIn(low, high, tail) == 3
  {
    assert tail[1..][1..][1..] == [];
    assert CountIn(low, high, tail[1..][1..]) == if high > SKIPPED[7] then 1 else 0;
  }

  /** The first i reserved branches lie below low, and the next ones do not. */
  lemma {:induction false} SkippedByMinIs(low: int, i: nat)
    requires i == SkippedByMin(low) && i <= 5 && low !in RESERVED
    ensures low <= SKIPPED[5]
    ensures i > 0 ==> SKIPPED[i - 1] < low
    ensures i < 5 ==> low <= SKIPPED[i]
  {
    assert RESERVED[5] in RESERVED && RESERVED[6] in RESERVED && RESERVED[7] in RESERVED;
  }

  lemma {:induction false} ReservedSorted()
    ensures Sorted(RESERVED) && Sorted(SKIPPED) && RESERVED == SKIPPED + [LAST_BRANCH]
  {
  }

  /** Counting from low on, only the branches the loop runs over and the last ones matter. */
  lemma {:induction false} CountParts(low: int, high: int, reserved: seq<int>, i: nat)
    requires i <= 5 <= |reserved|
    requires forall j :: 0 <= j < i ==> reserved[j] < low
    ensures CountIn(low, high, reserved) == CountIn(low, high, reserved[i..5]) + CountIn(low, high, reserved[5..])
  {
    ThreeParts(reserved, i, 5);
    CountInConcat(low, high, reserved[..i], reserved[i..5] + reserved[5..]);
    CountInConcat(low, high, reserved[i..5], reserved[5..]);
    CountInNone(low, high, reserved[..i]);
  }

  /** What the loop runs over is sorted and lies between low and ZYX. */
  lemma {:induction false} MiddlePart(low: int, reserved: seq<int>, i: nat, middle: seq<int>)
    requires i <= 5 < |reserved| && Sorted(reserved) && middle == reserved[i..5]
    requires i < 5 ==> low <= reserved[i]
    ensures Sorted(middle) && forall j :: 0 <= j < |middle| ==> low <= middle[j] < reserved[5]
  {
    assert forall j :: 0 <= j < |middle| ==> middle[j] == reserved[i + j];
  }

  lemma {:induction false} OutsideParts(b: int, low: int, reserved: seq<int>, i: nat)
    requires i <= 5 <= |reserved| && b >= low
    requires forall j :: 0 <= j < i ==> reserved[j] < low
    requires b !in reserved[i..5] && b !in reserved[5..]
    ensures b !in reserved
  {
    ThreeParts(reserved, i, 5);
  }

  /** The k-th block lies on the k-th branch from low on that is not skipped. */
  lemma {:induction false} NthBranchIs(low: int, k: nat)
    requires low !in RESERVED
    ensures var b := NthBranch(low, k);
      b !in SKIPPED && b >= low + k && RankAmong(low, b, SKIPPED) == k
  {
    var i, b := SkippedByMin(low), NthBranch(low, k);
    if i == 8 {
      CountInNone(low, b + 1, SKIPPED);
    } else {
      NthBranchSkips(low, k, i);
      assert SKIPPED[i..5] == RESERVED[i..5];
    }
  }

  lemma {:induction false} SkipMiddle(low: int, branch: int, i: nat, middle: seq<int>, tail: seq<int>)
    requires i <= 5 && middle == SKIPPED[i..5] && tail == SKIPPED[5..]
    requires low <= SKIPPED[5] && (i < 5 ==> low <= SKIPPED[i])
    ensures var b := SkipBranches(branch, middle);
      b == branch + CountIn(low, b + 1, middle) + CountIn(low, b + 1, tail) && b !in middle && b !in tail
  {
    ReservedSorted();
    MiddlePart(low, SKIPPED, i, middle);
    SkipBranchesIs(low, branch, middle, tail);
  }

  lemma {:induction false} NthBranchSkips(low: int, k: nat, i: nat)
    requires low !in RESERVED && i == SkippedByMin(low) && i <= 5
    ensures var b := SkipBranches(low + k, SKIPPED[i..5]);
      b !in SKIPPED && RankAmong(low, b, SKIPPED) == k
  {
    var middle, tail := SKIPPED[i..5], SKIPPED[5..];
    var b := SkipBranches(low + k, middle);
    SkippedByMinIs(low, i);
    SkipMiddle(low, low + k, i, middle, tail);
    BelowMin(low, i);
    CountParts(low, b + 1, SKIPPED, i);
    OutsideParts(b, low, SKIPPED, i);
  }

  lemma {:induction false} BelowMin(low: int, i: nat)
    requires i <= 5 && (i > 0 ==> SKIPPED[i - 1] < low)
    ensures forall j :: 0 <= j < i ==> SKIPPED[j] < low
  {
    ReservedSorted();
  }

  // ---- a generator ----

  /** The first branch is usable, and the last one is a branch. */
  predicate Bounds(low: int, high: int) {
    0 <= low <= high <= LAST_BRANCH && low !in RESERVED
  }

  function Available(low: int, high: int): int {
    Total(low * 10000, IdCode(high, 9999))
  }

  function Nth(low: int, n: int): int {
    NthId(low * 10000, SkippedByMin(low), n)
  }

  /** An id inside the bounds that may be used. */
  predicate Usable(low: int, high: int, branch: int, number: int) {
    low <= branch <= high && branch !in RESERVED && 1 <= number <= 9999
  }

  lemma {:induction false} BlockOf(low: int, high: int, n: int) returns (k: nat, number: int)
    requires Bounds(low, high) && 1 <= n <= Available(low, high)
    ensures n == k * 9999 + number && 1 <= number <= 9999
    ensures k == (n - 1) / 9999 && k <= Rank(low, high)
  {
    TotalIs(low, high, 9999);
    k, number := (n - 1) / 9999, (n - 1) % 9999 + 1;
  }

  /** Rank k belongs to a usable branch within the bounds. */
  lemma {:induction false} BlockInBounds(low: int, high: int, k: nat)
    requires Bounds(low, high) && k <= Rank(low, high)
    ensures var b := NthBranch(low, k);
      Usable(low, high, b, 1) && b < LAST_BRANCH && Rank(low, b) == k
  {
    var b := NthBranch(low, k);
    NthBranchIs(low, k);
    ReservedSorted();
    CountInConcat(low, b + 1, SKIPPED, [LAST_BRANCH]);
    CountInConcat(low, LAST_BRANCH + 1, SKIPPED, [LAST_BRANCH]);
    RankGrows(low, high, LAST_BRANCH, RESERVED);
    if b >= LAST_BRANCH {
      RankGrows(low, LAST_BRANCH, b, SKIPPED);
      assert false;
    }
    if b > high {
      RankGrows(low, high, b, RESERVED);
      assert false;
    }
  }

  /**
   The n-th id, for any n up to the number of available ids: it is not -1, its branch is
   usable, its number is not 0000, it lies in [min, max], and counting the ids up to it gives n.
   */
  lemma {:induction false} NthIdIs(low: int, high: int, n: int) returns (branch: int, number: int)
    requires Bounds(low, high) && 1 <= n <= Available(low, high)
    ensures Nth(low, n) == IdCode(branch, number) && Usable(low, high, branch, number)
    ensures low * 10000 < Nth(low, n) <= IdCode(high, 9999)
    ensures Total(low * 10000, Nth(low, n)) == n
  {
    var k;
    k, number := BlockOf(low, high, n);
    branch := NthBranch(low, k);
    BlockInBounds(low, high, k);
    assert n + (n - 1) / 9999 + low * 10000 == IdCode(low + k, number);
    if SkippedByMin(low) != 8 {
      SkipOnBranches(low + k, number, RESERVED[SkippedByMin(low)..5]);
    }
    TotalIs(low, branch, number);
  }

  /** A later id is a larger one. */
  lemma {:induction false} NthIdIncreases(low: int, high: int, m: int, n: int)
    requires Bounds(low, high) && 1 <= m < n <= Available(low, high)
    ensures Nth(low, m) < Nth(low, n)
  {
    var b, r := NthIdIs(low, high, m);
    var c, t := NthIdIs(low, high, n);
    TotalIs(low, b, r);
    TotalIs(low, c, t);
    if c < b {
      RankGrows(low, c, b, RESERVED);
    }
  }

  /** Every usable id is the n-th one for exactly the n that counting gives. */
  lemma {:induction false} EveryIdIsNth(low: int, high: int, branch: int, number: int)
    requires Bounds(low, high) && Usable(low, high, branch, number)
    ensures var n := Total(low * 10000, IdCode(branch, number));
      1 <= n <= Available(low, high) && Nth(low, n) == IdCode(branch, number)
  {
    var n := Total(low * 10000, IdCode(branch, number));
    TotalIs(low, branch, number);
    RankInBounds(low, high, branch);
    TotalIs(low, high, 9999);
    var b, r := NthIdIs(low, high, n);
    TotalIs(low, b, r);
    RankInjective(low, b, branch);
  }

  lemma {:induction false} RankInBounds(low: int, high: int, branch: int)
    requires Bounds(low, high) && low <= branch <= high
    ensures 0 <= Rank(low, branch) <= Rank(low, high)
  {
    ReservedSorted();
    CountInNone(low, low + 1, RESERVED);
    RankGrows(low, low, branch, RESERVED);
    RankGrows(low, branch, high, RESERVED);
  }

  /** Two usable branches of the same rank are one. */
  lemma {:induction false} RankInjective(low: int, a: int, b: int)
    requires low <= a && low <= b && a !in RESERVED && b !in RESERVED
    ensures Rank(low, a) == Rank(low, b) ==> a == b
  {
    ReservedSorted();
    if a < b {
      RankGrows(low, a, b, RESERVED);
    } else if b < a {
      RankGrows(low, b, a, RESERVED);
    }
  }

  // ---- encode and decode ----

  predicate IsDigit(c: char) {
    '0' <= c <= '9'
  }

  predicate IsUpper(c: char) {
    'A' <= c <= 'Z'
  }

  predicate Base(base: int) {
    base == 10 || base == 26
  }

  /** Digits in base 10, capital letters in base 26. */
  function Symbol(base: int, d: int): char
    requires Base(base) && 0 <= d < base
  {
    if base == 10 then ('0' as int + d) as char else ('A' as int + d) as char
  }

  function SymbolValue(base: int, c: char): int {
    if base == 10 then c as int - '0' as int else LetterValue(c)
  }

  predicate IsSymbol(base: int, c: char) {
    if base == 10 then IsDigit(c) else IsUpper(c)
  }

  /** The loop of decode over some characters; absent at the first one that is no symbol. */
  function Read(s: string, base: int, acc: int): Option<int> {
    if s == [] then Some(acc)
    else if !IsSymbol(base, s[0]) then None
    else Read(s[1..], base, acc * base + SymbolValue(base, s[0]))
  }

  /** The loop of encode that writes value backwards, from position p down to stop. */
  function Write(s: string, p: int, stop: nat, base: int, value: int): (r: string)
    requires Base(base) && stop - 1 <= p < |s|
    ensures |r| == |s| && r[..stop] == s[..stop] && r[p + 1..] == s[p + 1..]
    decreases p - stop + 1
  {
    if p < stop then s
    else Write(s[p := Symbol(base, value % base)], p - 1, stop, base, value / base)
  }

  /** What fits into k symbols. */
  function Limit(base: int, k: nat): int {
    if k == 0 then 1 else Limit(base, k - 1) * base
  }

  lemma {:induction false} ReadAppend(s: string, c: char, base: int, acc: int)
    requires IsSymbol(base, c) && Read(s, base, acc).Some?
    ensures Read(s + [c], base, acc) == Some(Read(s, base, acc).value * base + SymbolValue(base, c))
    decreases |s|
  {
    if s == [] {
      assert [c][1..] == [];
    } else {
      assert (s + [c])[1..] == s[1..] + [c];
      ReadAppend(s[1..], c, base, acc * base + SymbolValue(base, s[0]));
    }
  }

  lemma {:induction false} SymbolRoundTrip(base: int, d: int)
    requires Base(base) && 0 <= d < base
    ensures IsSymbol(base, Symbol(base, d)) && SymbolValue(base, Symbol(base, d)) == d
  {
  }

  lemma {:induction false} DivideLimit(base: int, k: nat, value: int)
    requires Base(base) && 0 <= value < Limit(base, k + 1)
    ensures 0 <= value / base < Limit(base, k)
    ensures 0 <= value % base < base && value / base * base + value % base == value
  {
    if base == 10 {
      assert Limit(10, k + 1) == Limit(10, k) * 10;
    } else {
      assert Limit(26, k + 1) == Limit(26, k) * 26;
    }
  }

  lemma {:induction false} LastWritten(r: string, t: string, stop: nat, p: nat)
    requires stop <= p < |r| == |t| && r[p..] == t[p..]
    ensures r[stop..p + 1] == r[stop..p] + [t[p]]
  {
    assert r[p] == r[p..][0] == t[p..][0];
  }

  /** Reading what was written gives the value back. */
  lemma {:induction false} ReadWrite(s: string, p: int, stop: nat, base: int, value: int)
    requires Base(base) && stop - 1 <= p < |s| && 0 <= value < Limit(base, p + 1 - stop)
    ensures Read(Write(s, p, stop, base, value)[stop..p + 1], base, 0) == Some(value)
    decreases p - stop + 1
  {
    if p < stop {
    } else {
      DivideLimit(base, p - stop, value);
      var c := Symbol(base, value % base);
      var t := s[p := c];
      var r := Write(t, p - 1, stop, base, value / base);
      ReadWrite(t, p - 1, stop, base, value / base);
      LastWritten(r, t, stop, p);
      SymbolRoundTrip(base, value % base);
      ReadAppend(r[stop..p], c, base, 0);
    }
  }

  const ID_LENGTH: nat := 17

  /** The template with a branch and a number filled in. */
  function Filled(template: string, branch: int, number: int): string
    requires |template| >= 8
  {
    Write(Write(template, 7, 4, 10, number), 2, 0, 26, branch)
  }

  /** encode: the empty string past the last id, and otherwise the template with its letters and digits filled in. */
  function Encoded(low: int, high: int, template: string, n: int): string
    requires |template| >= 8
  {
    if n > Available(low, high) then ""
    else
      var id := Nth(low, n);
      Filled(template, id / 10000, id % 10000)
  }

  /** decode: -1 for anything that does not look like an id. */
  function Decoded(low: int, s: string): int {
    if |s| != ID_LENGTH then -1
    else
      match Read(s[4..8], 10, 0)
      case None => -1
      case Some(num) =>
        match Read(s[..3], 26, 0)
        case None => -1
        case Some(alpha) => Total(low * 10000, alpha * 10000 + num)
  }

  lemma {:induction false} Limits()
    ensures Limit(10, 4) == 10000 && Limit(26, 3) == 17576
  {
    assert Limit(10, 3) == 1000 && Limit(26, 2) == 676;
  }

  /** Writing an id into a template and reading it back. */
  lemma {:induction false} IdReadBack(template: string, branch: int, number: int)
    requires |template| == ID_LENGTH && 0 <= branch <= LAST_BRANCH && 0 <= number < 10000
    ensures var s := Filled(template, branch, number);
      |s| == ID_LENGTH && Read(s[4..8], 10, 0) == Some(number) && Read(s[..3], 26, 0) == Some(branch)
  {
    Limits();
    var t := Write(template, 7, 4, 10, number);
    var s := Write(t, 2, 0, 26, branch);
    ReadWrite(template, 7, 4, 10, number);
    ReadWrite(t, 2, 0, 26, branch);
    assert s[4..8] == s[3..][1..5] == t[3..][1..5] == t[4..8];
    assert s[0..3] == s[..3];
  }

  /** decode undoes encode on every available number. */
  lemma {:induction false} DecodeEncode(low: int, high: int, template: string, n: int)
    requires Bounds(low, high) && 1 <= n <= Available(low, high) && |template| == ID_LENGTH
    ensures Decoded(low, Encoded(low, high, template, n)) == n
  {
    var branch, number := NthIdIs(low, high, n);
    IdCodeParts(branch, number);
    IdReadBack(template, branch, number);
  }

  /** encode undoes decode on every usable id. */
  lemma {:induction false} EncodeDecode(low: int, high: int, template: string, branch: int, number: int)
    requires Bounds(low, high) && Usable(low, high, branch, number) && |template| == ID_LENGTH
    ensures var id := Filled(template, branch, number);
      Encoded(low, high, template, Decoded(low, id)) == id
  {
    IdReadBack(template, branch, number);
    EveryIdIsNth(low, high, branch, number);
    IdCodeParts(branch, number);
  }

  // ---- which texts does encode give back? ----

  /** A text of the length of an id, with letters and digits where they belong. */
  predicate ReadsAs(s: string, branch: int, number: int) {
    |s| == ID_LENGTH && Read(s[..3], 26, 0) == Some(branch) && Read(s[4..8], 10, 0) == Some(number)
  }

  /** The number of a filled template is read back whatever its letters are. */
  lemma {:induction false} NumberReadBack(template: string, branch: int, number: int)
    requires |template| >= 8 && 0 <= number < 10000
    ensures Read(Filled(template, branch, number)[4..8], 10, 0) == Some(number)
  {
    Limits();
    var t := Write(template, 7, 4, 10, number);
    var s := Filled(template, branch, number);
    ReadWrite(template, 7, 4, 10, number);
    assert s[4..8] == s[3..][1..5] == t[3..][1..5] == t[4..8];
  }

  /** k symbols, and then those of s, give a value that fits into as many symbols. */
  lemma {:induction false} ReadBelow(s: string, base: int, acc: int, k: nat)
    requires Base(base) && 0 <= acc < Limit(base, k) && Read(s, base, acc).Some?
    ensures 0 <= Read(s, base, acc).value < Limit(base, k + |s|)
    decreases |s|
  {
    if s == [] {
    } else {
      assert Limit(base, k + 1) == Limit(base, k) * base;
      assert base == 10 || base == 26;
      ReadBelow(s[1..], base, acc * base + SymbolValue(base, s[0]), k + 1);
    }
  }

  lemma {:induction false} CountSkipsBelow(low: int, end: int, branches: seq<int>, skips: int)
    requires end <= low * 10000
    ensures CountSkips(low * 10000, end, branches, skips) == skips
  {
    if branches == [] {
    } else if low > branches[0] {
      CountSkipsBelow(low, end, branches[1..], skips);
    }
  }

  /** Below the first id, counting and get_nth_id go on with numbers that are not positive, and skip no branch. */
  lemma {:induction false} NthBelow(low: int, high: int, branch: int, number: int)
    requires Bounds(low, high) && 0 <= number < 10000 && IdCode(branch, number) <= low * 10000
    ensures var n := Total(low * 10000, IdCode(branch, number));
      n <= 0 && Nth(low, n) == if number == 0 then IdCode(branch, 0) - 1 else IdCode(branch, number)
  {
    IdCodeParts(branch - low, number);
    assert IdCode(branch, number) - low * 10000 == IdCode(branch - low, number);
    CountSkipsBelow(low, IdCode(branch, number), RESERVED, branch - low);
    var n := (branch - low) * 9999 + number;
    assert Total(low * 10000, IdCode(branch, number)) == n;
    var ret := if number == 0 then IdCode(branch, 0) - 1 else IdCode(branch, number);
    assert (n - 1) / 9999 == if number == 0 then branch - low - 1 else branch - low;
    assert n + (n - 1) / 9999 + low * 10000 == ret < low * 10000;
  }

  /** What encode makes of an available number is read as a usable id. */
  lemma {:induction false} EncodedIsUsable(low: int, high: int, template: string, n: int, branch: int, number: int)
    requires Bounds(low, high) && |template| == ID_LENGTH && 1 <= n <= Available(low, high)
    requires Read(Encoded(low, high, template, n)[..3], 26, 0) == Some(branch)
    requires Read(Encoded(low, high, template, n)[4..8], 10, 0) == Some(number)
    ensures Usable(low, high, branch, number)
  {
    var b, r := NthIdIs(low, high, n);
    IdCodeParts(b, r);
    IdReadBack(template, b, r);
  }

  /** An id below the first one, which decodes to a number that is not positive, comes back all the same. */
  lemma {:induction false} EncodedBelow(low: int, high: int, template: string, branch: int, number: int)
    requires Bounds(low, high) && |template| == ID_LENGTH && 0 < number < 10000
    requires IdCode(branch, number) <= low * 10000
    ensures Encoded(low, high, template, Total(low * 10000, IdCode(branch, number))) ==
      Filled(template, branch, number)
  {
    NthBelow(low, high, branch, number);
    AvailablePositive(low, high);
    IdCodeParts(branch, number);
  }

  lemma {:induction false} ZeroIsLost(low: int, high: int, template: string, branch: int)
    requires Bounds(low, high) && |template| == ID_LENGTH && branch <= low
    ensures !ReadsAs(Encoded(low, high, template, Total(low * 10000, IdCode(branch, 0))), branch, 0)
  {
    NthBelow(low, high, branch, 0);
    AvailablePositive(low, high);
    IdCodeParts(branch - 1, 9999);
    assert Nth(low, Total(low * 10000, IdCode(branch, 0))) == IdCode(branch - 1, 9999);
    NumberReadBack(template, branch - 1, 9999);
  }

  lemma {:induction false} AvailablePositive(low: int, high: int)
    requires Bounds(low, high)
    ensures Available(low, high) > 0
  {
    TotalIs(low, high, 9999);
    RankInBounds(low, high, high);
  }

  /** The ids that encode gives back for what decode made of them. */
  predicate Recovered(low: int, high: int, branch: int, number: int) {
    number != 0 && branch <= high && (branch < low || branch !in RESERVED)
  }

  lemma {:induction false} AboveIsPositive(low: int, high: int, branch: int, number: int)
    requires Bounds(low, high) && 0 <= number < 10000 && low * 10000 < IdCode(branch, number)
    ensures Total(low * 10000, IdCode(branch, number)) >= 1
  {
    ReservedSorted();
    CountInNone(low, low + 1, RESERVED);
    if number > 0 {
      TotalIs(low, branch, number);
      RankGrows(low, low, branch, RESERVED);
    } else {
      NumberZero(low, branch);
      RankGrows(low, low, branch - 1, RESERVED);
    }
  }

  lemma {:induction false} CountSkipsAtZero(low: int, branch: int, branches: seq<int>, skips: int)
    requires low < branch && Sorted(branches)
    ensures CountSkips(low * 10000, IdCode(branch, 0), branches, skips) ==
      CountSkips(low * 10000, IdCode(branch - 1, 9999), branches, skips)
  {
    if branches == [] {
    } else if low > branches[0] {
      CountSkipsAtZero(low, branch, branches[1..], skips);
    } else if branch - 1 >= branches[0] {
      CountSkipsAtZero(low, branch, branches[1..], skips + 9999);
    }
  }

  /** Number 0000 of a branch is counted like number 9999 of the branch before it. */
  lemma {:induction false} NumberZero(low: int, branch: int)
    requires low < branch
    ensures Total(low * 10000, IdCode(branch, 0)) == Total(low * 10000, IdCode(branch - 1, 9999))
    ensures Total(low * 10000, IdCode(branch, 0)) == Rank(low, branch - 1) * 9999 + 9999
  {
    ReservedSorted();
    CountSkipsAtZero(low, branch, RESERVED, branch - low);
    IdCodeParts(branch - low, 0);
    IdCodeParts(branch - 1 - low, 9999);
    CountSkipsShift(low * 10000, IdCode(branch - 1, 9999), RESERVED, branch - low, branch - 1 - low);
    TotalIs(low, branch - 1, 9999);
  }

  lemma {:induction false} CountSkipsShift(begin: int, end: int, branches: seq<int>, a: int, b: int)
    ensures CountSkips(begin, end, branches, a) - a == CountSkips(begin, end, branches, b) - b
  {
    if branches == [] {
    } else if begin > branches[0] * 10000 + 9999 {
      CountSkipsShift(begin, end, branches[1..], a, b);
    } else if end > branches[0] * 10000 {
      CountSkipsShift(begin, end, branches[1..], a + 9999, b + 9999);
    }
  }

  lemma {:induction false} ReadsAsBounds(s: string, branch: int, number: int)
    requires ReadsAs(s, branch, number)
    ensures 0 <= branch <= LAST_BRANCH && 0 <= number < 10000
  {
    Limits();
    ReadBelow(s[..3], 26, 0, 0);
    ReadBelow(s[4..8], 10, 0, 0);
  }

  lemma {:induction false} UsableRecovered(low: int, high: int, template: string, branch: int, number: int)
    requires Bounds(low, high) && |template| == ID_LENGTH && Usable(low, high, branch, number)
    ensures Encoded(low, high, template, Total(low * 10000, IdCode(branch, number))) ==
      Filled(template, branch, number)
  {
    EncodeDecode(low, high, template, branch, number);
    IdReadBack(template, branch, number);
  }

  lemma {:induction false} RecoveredAbove(low: int, high: int, template: string, branch: int, number: int)
    requires Bounds(low, high) && |template| == ID_LENGTH
    requires 0 <= branch <= LAST_BRANCH && 0 <= number < 10000 && low * 10000 < IdCode(branch, number)
    ensures var s := Encoded(low, high, template, Total(low * 10000, IdCode(branch, number)));
      if Usable(low, high, branch, number) then s == Filled(template, branch, number) else !ReadsAs(s, branch, number)
  {
    var n := Total(low * 10000, IdCode(branch, number));
    AboveIsPositive(low, high, branch, number);
    if Usable(low, high, branch, number) {
      UsableRecovered(low, high, template, branch, number);
    } else if n <= Available(low, high) {
      if ReadsAs(Encoded(low, high, template, n), branch, number) {
        EncodedIsUsable(low, high, template, n, branch, number);
      }
    }
  }

  lemma {:induction false} RecoveredIs(low: int, high: int, template: string, branch: int, number: int)
    requires Bounds(low, high) && |template| == ID_LENGTH
    requires 0 <= branch <= LAST_BRANCH && 0 <= number < 10000
    ensures var s := Encoded(low, high, template, Total(low * 10000, IdCode(branch, number)));
      if Recovered(low, high, branch, number) then s == Filled(template, branch, number)
      else !ReadsAs(s, branch, number)
  {
    if low * 10000 >= IdCode(branch, number) {
      if number == 0 {
        ZeroIsLost(low, high, template, branch);
      } else {
        EncodedBelow(low, high, template, branch, number);
      }
    } else {
      RecoveredAbove(low, high, template, branch, number);
    }
  }

  lemma {:induction false} DecodedIs(low: int, s: string, branch: int, number: int)
    requires ReadsAs(s, branch, number)
    ensures Decoded(low, s) == Total(low * 10000, IdCode(branch, number))
  {
  }

  /**
   For any text that decode takes for an id, encode gives the text back exactly when the text is the
   template filled in, the number is not 0000, the branch does not lie above the last one, and the
   branch is not a reserved one from the first one on.
   */
  lemma {:induction false} DecodedReadsBackIff(low: int, high: int, template: string, s: string,
                                               branch: int, number: int)
    requires Bounds(low, high) && |template| == ID_LENGTH && ReadsAs(s, branch, number)
    ensures Encoded(low, high, template, Decoded(low, s)) == s <==>
      s == Filled(template, branch, number) && Recovered(low, high, branch, number)
  {
    ReadsAsBounds(s, branch, number);
    DecodedIs(low, s, branch, number);
    RecoveredIs(low, high, template, branch, number);
  }

  lemma {:induction false} ReadDigits(a: char, b: char, c: char, d: char)
    requires IsDigit(a) && IsDigit(b) && IsDigit(c) && IsDigit(d)
    ensures Read([a, b, c, d], 10, 0) == Some(((SymbolValue(10, a) * 10 + SymbolValue(10, b)) * 10
                                               + SymbolValue(10, c)) * 10 + SymbolValue(10, d))
  {
    assert [a, b, c, d] == [a] + [b] + [c] + [d];
    assert [a][1..] == [];
    ReadAppend([a], b, 10, 0);
    ReadAppend([a] + [b], c, 10, 0);
    ReadAppend([a] + [b] + [c], d, 10, 0);
  }

  lemma {:induction false} ReadLetters(a: char, b: char, c: char)
    requires IsUpper(a) && IsUpper(b) && IsUpper(c)
    ensures Read([a, b, c], 26, 0) == Some(BranchCode([a, b, c]))
  {
    assert [a, b, c] == [a] + [b] + [c];
    assert [a][1..] == [];
    ReadAppend([a], b, 26, 0);
    ReadAppend([a] + [b], c, 26, 0);
  }

  lemma {:induction false} DecodedText(s: string)
    requires |s| == ID_LENGTH && IsUpper(s[0]) && IsUpper(s[1]) && IsUpper(s[2])
    requires IsDigit(s[4]) && IsDigit(s[5]) && IsDigit(s[6]) && IsDigit(s[7])
    ensures var number := ((SymbolValue(10, s[4]) * 10 + SymbolValue(10, s[5])) * 10
                           + SymbolValue(10, s[6])) * 10 + SymbolValue(10, s[7]);
      Decoded(0, s) == Total(0, IdCode(BranchCode([s[0], s[1], s[2]]), number))
  {
    ReadLetters(s[0], s[1], s[2]);
    ReadDigits(s[4], s[5], s[6], s[7]);
    assert s[..3] == [s[0], s[1], s[2]] && s[4..8] == [s[4], s[5], s[6], s[7]];
  }

  lemma {:induction false} NothingReserved(branch: int, number: int)
    requires 0 <= branch < RESERVED[0] && 0 < number < 10000
    ensures Total(0, IdCode(branch, number)) == branch * 9999 + number
  {
    TotalIs(0, branch, number);
    ReservedSorted();
    CountInNone(0, branch + 1, RESERVED);
  }

  /** The first reserved branch is counted like the branch before it. */
  lemma {:induction false} FirstReserved(branch: int, number: int)
    requires branch == RESERVED[0] && 0 < number < 10000
    ensures Total(0, IdCode(branch, number)) == Total(0, IdCode(branch - 1, number)) == (branch - 1) * 9999 + number
  {
    NothingReserved(branch - 1, number);
    TotalIs(0, branch, number);
    ReservedSorted();
    CountInNone(0, branch, RESERVED);
    CountInNext(0, branch, RESERVED);
  }

  /** With AAA as the first branch, the reserved HMQ-0017 decodes like HMP-0017. */
  lemma {:induction false} ReservedExample()
    ensures Decoded(0, "HMQ-0017/01012025") == Decoded(0, "HMP-0017/01012025") == 5059 * 9999 + 17
  {
    FirstReserved(5060, 17);
    DecodedText("HMQ-0017/01012025");
    DecodedText("HMP-0017/01012025");
  }

  /** AAB-0000 decodes like AAA-9999. */
  lemma {:induction false} NumberZeroExample()
    ensures Decoded(0, "AAB-0000/01012025") == Decoded(0, "AAA-9999/01012025") == 9999
  {
    NumberZero(0, 1);
    NothingReserved(0, 9999);
    DecodedText("AAB-0000/01012025");
    DecodedText("AAA-9999/01012025");
  }

  /** get_total_num_of_available_ids */
  method GetTotalNumOfAvailableIds(begin: int, end: int) returns (total: int)
    ensures total == Total(begin, end)
  {
    var skips := (end - begin) / 10000;
    assert RESERVED[0..] == RESERVED;
    for i := 0 to |RESERVED|
      invariant CountSkips(begin, end, RESERVED[i..], skips) == CountSkips(begin, end, RESERVED, (end - begin) / 10000)
    {
      assert RESERVED[i..][1..] == RESERVED[i + 1..];
      if begin > RESERVED[i] * 10000 + 9999 {
        continue;
      } else if end > RESERVED[i] * 10000 {
        skips := skips + 9999;
      } else {
        return end - begin - skips;
      }
    }
    return end - begin - skips;
  }

  class NyseBranchSeqGenerator {
    const min: int
    const max: int
    const skippedByMin: nat
    const available: int
    const template: string
    ghost const low: int
    ghost const high: int

    /** The state the constructor is meant to reach, for two branches and a template "XXX-NNNN/mmddyyyy". */
    constructor (low: int, high: int, template: string)
      requires Bounds(low, high) && |template| == ID_LENGTH
      ensures this.low == low && this.high == high && this.template == template && Valid()
    {
      this.low, this.high, this.template := low, high, template;
      min, max, skippedByMin := low * 10000, high * 10000 + 9999, SkippedByMin(low);
      var total := GetTotalNumOfAvailableIds(low * 10000, high * 10000 + 9999);
      available := total;
    }

    ghost predicate Valid() {
      && Bounds(low, high) && |template| == ID_LENGTH
      && min == low * 10000 && max == IdCode(high, 9999)
      && skippedByMin == SkippedByMin(low) && available == Available(low, high)
    }

    /** get_nth_id */
    method GetNthId(n: int) returns (id: int)
      requires Valid()
      ensures id == Nth(low, n)
    {
      var ret := n + (n - 1) / 9999 + min;
      if skippedByMin == 8 {
        return ret;
      }
      ghost var branches := RESERVED[skippedByMin..5];
      ghost var start := ret;
      assert branches[0..] == branches;
      for i := skippedByMin to 5
        invariant SkipReserved(ret, branches[i - skippedByMin..]) == SkipReserved(start, branches)
      {
        assert branches[i - skippedByMin] == RESERVED[i];
        assert branches[i - skippedByMin..][1..] == branches[i + 1 - skippedByMin..];
        if ret < RESERVED[i] * 10000 {
          return ret;
        }
        ret := ret + 10000;
      }
      if ret < RESERVED[5] * 10000 {
        return ret;
      }
      if ret < RESERVED[8] * 10000 {
        return ret + 30000;
      }
      return -1;
    }

    /** Either loop of decode. */
    method ReadSymbols(s: string, base: int) returns (value: Option<int>)
      ensures value == Read(s, base, 0)
    {
      var acc := 0;
      assert s[0..] == s;
      for i := 0 to |s|
        invariant Read(s[i..], base, acc) == Read(s, base, 0)
      {
        assert s[i..][1..] == s[i + 1..];
        if !IsSymbol(base, s[i]) {
          return None;
        }
        acc := acc * base + SymbolValue(base, s[i]);
      }
      return Some(acc);
    }

    /** Either loop of encode. */
    method WriteSymbols(s: string, last: nat, stop: nat, base: int, value: int) returns (encoded: string)
      requires Base(base) && stop <= last < |s|
      ensures encoded == Write(s, last, stop, base, value)
    {
      encoded := s;
      var rest := value;
      for p := last + 1 downto stop
        invariant |encoded| == |s| && Write(encoded, p - 1, stop, base, rest) == Write(s, last, stop, base, value)
      {
        encoded := encoded[p := Symbol(base, rest % base)];
        rest := rest / base;
      }
    }

    /** decode gives back every number that encode takes. */
    method Decode(s: string) returns (n: int)
      requires Valid()
      ensures n == Decoded(low, s)
      ensures forall k :: 1 <= k <= available && s == Encoded(low, high, template, k) ==> n == k
    {
      forall k | 1 <= k <= available && s == Encoded(low, high, template, k) ensures Decoded(low, s) == k {
        DecodeEncode(low, high, template, k);
      }
      if |s| != ID_LENGTH {
        return -1;
      }
      var num := ReadSymbols(s[4..8], 10);
      if num.None? {
        return -1;
      }
      var alpha := ReadSymbols(s[..3], 26);
      if alpha.None? {
        return -1;
      }
      n := GetTotalNumOfAvailableIds(min, alpha.value * 10000 + num.value);
    }

    method Encode(n: int) returns (s: string)
      requires Valid()
      ensures s == Encoded(low, high, template, n)
      ensures 1 <= n <= available ==> Decoded(low, s) == n
    {
      if 1 <= n <= available {
        DecodeEncode(low, high, template, n);
      }
      if n > available {
        return "";
      }
      var id := GetNthId(n);
      s := WriteSymbols(template, 7, 4, 10, id % 10000);
      s := WriteSymbols(s, 2, 0, 26, id / 10000);
    }
  }
}
