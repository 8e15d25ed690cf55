/** findBodyLengthFrameEnd: finding the end of the first FIX frame in a buffer by its BodyLength. */
module Framing {
  import opened Wrappers
  import opened ByteStrings
  import opened Collections
  import opened Streams

  // ---- fmt.Sscanf(s, "%d", &n) ----

  predicate IsBlank(b: byte) {
    b == 32 || b == 9 || 11 <= b <= 13
  }

  /** The length of the longest prefix made of digits. */
  function DigitPrefix(s: bytes): (n: nat)
    ensures n <= |s| && AllDigits(s[..n])
    ensures n < |s| ==> !IsDigit(s[n])
  {
    if s == [] || !IsDigit(s[0]) then 0
    else
      var n := DigitPrefix(s[1..]);
      assert s[..n + 1] == [s[0]] + s[1..][..n];
      n + 1
  }

  /** Blanks, an optional sign and the longest run of digits; whatever follows is ignored. */
  function ScanInt(s: bytes): (r: Option<int>)
    ensures r.Some? ==> r.value <= MAX_INT64
  {
    if s == [] then None
    else if IsBlank(s[0]) then ScanInt(s[1..])
    else
      var rest := if IsSign(s[0]) then s[1..] else s;
      var n := DigitPrefix(rest);
      if n == 0 then None
      else
        match FromDigits(s[0] == MINUS, rest[..n])
        case Number(v) => Some(v)
        case _ => None
  }

  lemma {:induction false} ScanItoa(n: nat)
    requires n <= MAX_INT64
    ensures ScanInt(Itoa(n)) == Some(n)
  {
    var s := Itoa(n);
    assert IsDigit(s[0]);
    assert DigitPrefix(s) == |s|;
    assert s[..|s|] == s;
    DigitsRoundTrip(n);
  }

  predicate SignOrNone(sign: bytes) {
    sign == [] || sign == [43] || sign == [45]
  }

  /** Blanks, a sign or none, all the digits that follow, and a rest that does not begin with a digit. */
  ghost predicate ScanParts(blanks: bytes, sign: bytes, digits: bytes, rest: bytes) {
    && (forall i :: 0 <= i < |blanks| ==> blanks[i] in {9, 11, 12, 13, 32})
    && SignOrNone(sign)
    && digits != [] && AllDigits(digits)
    && (rest == [] || !IsDigit(rest[0]))
  }

  lemma {:induction false} DigitPrefixOf(digits: bytes, rest: bytes)
    requires AllDigits(digits) && (rest == [] || !IsDigit(rest[0]))
    ensures DigitPrefix(digits + rest) == |digits|
  {
    if digits == [] {
      assert digits + rest == rest;
    } else {
      DigitPrefixOf(digits[1..], rest);
      assert (digits + rest)[1..] == digits[1..] + rest;
    }
  }

  lemma {:induction false} ScanUnblanked(sign: bytes, digits: bytes, rest: bytes)
    requires ScanParts([], sign, digits, rest)
    ensures var magnitude: int := DigitsValue(digits);
      var n := if sign == [45] then -magnitude else magnitude;
      ScanInt(sign + digits + rest) == if MIN_INT64 <= n <= MAX_INT64 then Some(n) else None
  {
    var s := sign + digits + rest;
    assert s[|sign|..] == digits + rest;
    assert s[0] == if sign == [] then digits[0] else sign[0];
    DigitPrefixOf(digits, rest);
    assert (digits + rest)[..|digits|] == digits;
  }

  /** The number that is read from such a text; none if it does not fit 64 bits. */
  lemma {:induction false} ScanOf(blanks: bytes, sign: bytes, digits: bytes, rest: bytes)
    requires ScanParts(blanks, sign, digits, rest)
    ensures var magnitude: int := DigitsValue(digits);
      var n := if sign == [45] then -magnitude else magnitude;
      ScanInt(blanks + sign + digits + rest) == if MIN_INT64 <= n <= MAX_INT64 then Some(n) else None
  {
    if blanks == [] {
      assert [] + sign == sign;
      ScanUnblanked(sign, digits, rest);
    } else {
      ScanOf(blanks[1..], sign, digits, rest);
      var s := blanks + sign + digits + rest;
      assert s[1..] == blanks[1..] + sign + digits + rest && s[0] == blanks[0];
    }
  }

  /** Nothing else is read as a number. */
  lemma {:induction false} ScanSplits(s: bytes) returns (blanks: bytes, sign: bytes, digits: bytes, rest: bytes)
    requires ScanInt(s).Some?
    ensures ScanParts(blanks, sign, digits, rest) && s == blanks + sign + digits + rest
  {
    if IsBlank(s[0]) {
      blanks, sign, digits, rest := ScanSplits(s[1..]);
      blanks := [s[0]] + blanks;
    } else {
      blanks, sign := [], if IsSign(s[0]) then s[..1] else [];
      var behind := s[|sign|..];
      var n := DigitPrefix(behind);
      digits, rest := behind[..n], behind[n..];
      assert behind == digits + rest;
      assert IsSign(s[0]) ==> sign == [s[0]];
    }
  }

  // ---- findBodyLengthFrameEnd ----

  const TAG_8_PREFIX: bytes := [56, EQUALS]
  const TAG_9_PREFIX: bytes := [57, EQUALS]

  /** "10=NNN" and SOH */
  const TRAILER_LENGTH := 7

  /** Where the body starts and how long it claims to be. */
  datatype BodySpan = BodySpan(start: nat, length: nat)

  /** Steps 3 and 4, on the bytes behind the BeginString field. */
  function FindLength(buf: bytes): (r: Option<BodySpan>)
    ensures r.Some? ==> 3 <= r.value.start <= |buf| && r.value.length <= MAX_INT64
  {
    if |buf| < 3 || buf[..2] != TAG_9_PREFIX then None
    else
      var valLength := IndexByte(buf[2..], SOH);
      if valLength < 0 then None
      else
        match ScanInt(buf[2..][..valLength])
        case None => None
        case Some(n) => if n < 0 then None else Some(BodySpan(valLength + 3, n))
  }

  /** Steps 1 to 4: the BeginString field, then the BodyLength field. */
  function FindBody(buf: bytes): (r: Option<BodySpan>)
    ensures r.Some? ==> 3 <= r.value.start <= |buf| && r.value.length <= MAX_INT64
  {
    if |buf| < 3 || buf[..2] != TAG_8_PREFIX then None
    else
      var beginStringEnd := IndexByte(buf, SOH);
      if beginStringEnd < 0 then None
      else
        match FindLength(buf[beginStringEnd + 1..])
        case None => None
        case Some(span) => Some(BodySpan(beginStringEnd + 1 + span.start, span.length))
  }

  /** Steps 7 and 8: "10=", three digits and SOH. */
  predicate TrailerAt(buf: bytes, pos: nat)
    requires pos + TRAILER_LENGTH <= |buf|
  {
    && buf[pos] == 49 && buf[pos + 1] == 48 && buf[pos + 2] == EQUALS
    && IsDigit(buf[pos + 3]) && IsDigit(buf[pos + 4]) && IsDigit(buf[pos + 5])
    && buf[pos + 6] == SOH
  }

  /**
   findBodyLengthFrameEnd, with Go's wrapping addition: once the end of the trailer passes
   the largest int, the length check compares with a negative number and the slice fails.
   */
  function FindFrameEnd(buf: bytes): (r: Scan)
    ensures r.FrameEnd? ==> TRAILER_LENGTH <= r.end <= |buf|
  {
    match FindBody(buf)
    case None => NoFrame
    case Some(body) =>
      var bodyEnd := AddInt64(body.start, body.length);
      if |buf| < AddInt64(bodyEnd, TRAILER_LENGTH) then NoFrame
      else if bodyEnd < 0 || bodyEnd + TRAILER_LENGTH > MAX_INT64 then Panic
      else if TrailerAt(buf, bodyEnd) then FrameEnd(bodyEnd + TRAILER_LENGTH)
      else NoFrame
  }

  /** The finder panics exactly when the claimed length runs past the largest int. */
  lemma {:induction false} PanicsIff(buf: bytes)
    requires |buf| <= MAX_INT64 - TRAILER_LENGTH
    ensures FindFrameEnd(buf) == Panic <==>
      var body := FindBody(buf);
      body.Some? && body.value.start + body.value.length + TRAILER_LENGTH > MAX_INT64
  {
  }

  /** "8=begin", SOH, "9=number", SOH */
  function Header(begin: bytes, number: bytes): bytes {
    TAG_8_PREFIX + begin + [SOH] + LengthField(number)
  }

  function LengthField(number: bytes): bytes {
    TAG_9_PREFIX + number + [SOH]
  }

  predicate ScansTo(number: bytes, n: nat) {
    SOH !in number && ScanInt(number) == Some(n)
  }

  lemma {:induction false} HeaderSplits(begin: bytes, number: bytes, rest: bytes)
    ensures Header(begin, number) + rest == (TAG_8_PREFIX + begin) + [SOH] + (LengthField(number) + rest)
    ensures |Header(begin, number)| == |TAG_8_PREFIX + begin| + 1 + |LengthField(number)|
  {
    ConcatAssociative(TAG_8_PREFIX + begin + [SOH], LengthField(number), rest);
  }

  lemma {:induction false} FindLengthOf(number: bytes, n: nat, rest: bytes)
    requires ScansTo(number, n)
    ensures FindLength(LengthField(number) + rest) == Some(BodySpan(|LengthField(number)|, n))
  {
    var buf := LengthField(number) + rest;
    assert buf[..2] == TAG_9_PREFIX;
    assert buf[2..] == number + [SOH] + rest;
    IndexByteAt(number, SOH, rest);
    assert buf[2..][..|number|] == number;
  }

  lemma {:induction false} FindBodyBehind(buf: bytes, first: bytes, tail: bytes, span: BodySpan)
    requires |first| >= 2 && first[..2] == TAG_8_PREFIX && SOH !in first
    requires FindLength(tail) == Some(span)
    requires buf == first + [SOH] + tail
    ensures FindBody(buf) == Some(BodySpan(|first| + 1 + span.start, span.length))
  {
    IndexByteAt(first, SOH, tail);
    assert buf[..2] == first[..2];
    assert buf[|first| + 1..] == tail;
  }

  lemma {:induction false} FirstField(begin: bytes)
    requires SOH !in begin
    ensures var first := TAG_8_PREFIX + begin;
      |first| >= 2 && first[..2] == TAG_8_PREFIX && SOH !in first
  {
  }

  lemma {:induction false} FindBodyOf(begin: bytes, number: bytes, n: nat, rest: bytes)
    requires SOH !in begin && ScansTo(number, n)
    ensures FindBody(Header(begin, number) + rest) == Some(BodySpan(|Header(begin, number)|, n))
  {
    var first, tail := TAG_8_PREFIX + begin, LengthField(number) + rest;
    FirstField(begin);
    FindLengthOf(number, n, rest);
    HeaderSplits(begin, number, rest);
    FindBodyBehind(Header(begin, number) + rest, first, tail, BodySpan(|LengthField(number)|, n));
  }

  lemma {:induction false} FindLengthSplits(buf: bytes) returns (number: bytes, n: nat, rest: bytes)
    requires FindLength(buf).Some?
    ensures ScansTo(number, n) && buf == LengthField(number) + rest
  {
    var valLength := IndexByte(buf[2..], SOH);
    number, n, rest := buf[2..][..valLength], FindLength(buf).value.length, buf[valLength + 3..];
    assert buf == buf[..2] + number + [buf[2..][valLength]] + rest;
  }

  /** A span is found only behind such a header. */
  lemma {:induction false} FindBodySplits(buf: bytes) returns (begin: bytes, number: bytes, n: nat, rest: bytes)
    requires FindBody(buf).Some?
    ensures SOH !in begin && ScansTo(number, n) && buf == Header(begin, number) + rest
    ensures FindBody(buf) == Some(BodySpan(|Header(begin, number)|, n))
  {
    var beginStringEnd := IndexByte(buf, SOH);
    assert buf[0] == buf[..2][0] && buf[1] == buf[..2][1];
    begin := buf[..beginStringEnd][2..];
    number, n, rest := FindLengthSplits(buf[beginStringEnd + 1..]);
    assert buf[..beginStringEnd] == TAG_8_PREFIX + begin;
    assert buf == buf[..beginStringEnd] + [SOH] + buf[beginStringEnd + 1..];
    HeaderSplits(begin, number, rest);
    FindBodyOf(begin, number, n, rest);
  }

  /** A short header is enough: "8=F", SOH, "9=9223372036854775807", SOH. */
  lemma {:induction false} PanicExample()
    ensures FindFrameEnd(Header([70], Itoa(MAX_INT64))) == Panic
  {
    var length := MAX_INT64;
    var number := Itoa(length);
    var buf := Header([70], number);
    DigitsLength(length);
    ScanItoa(length);
    FindBodyOf([70], number, length, []);
    assert buf + [] == buf;
    PanicsIff(buf);
  }

  // ---- appending bytes ----

  /** The span is fixed by the two fields in front of it, whatever follows. */
  lemma {:induction false} FindBodyStable(buf: bytes, more: bytes)
    requires FindBody(buf).Some?
    ensures FindBody(buf + more) == FindBody(buf)
  {
    var begin, number, n, rest := FindBodySplits(buf);
    ConcatAssociative(Header(begin, number), rest, more);
    FindBodyOf(begin, number, n, rest + more);
  }

  /** Cutting behind the two fields loses nothing, and cutting inside them leaves no span. */
  lemma {:induction false} FindBodyPrefix(buf: bytes, k: nat)
    requires k <= |buf| && FindBody(buf).Some?
    ensures FindBody(buf[..k]) == if k < FindBody(buf).value.start then None else FindBody(buf)
  {
    if FindBody(buf[..k]).Some? {
      FindBodyStable(buf[..k], buf[k..]);
      TakeAndDrop(buf, k);
    } else if k >= FindBody(buf).value.start {
      FindBodyBeyond(buf, k);
    }
  }

  lemma {:induction false} FindBodyBeyond(buf: bytes, k: nat)
    requires FindBody(buf).Some? && FindBody(buf).value.start <= k <= |buf|
    ensures FindBody(buf[..k]) == FindBody(buf)
  {
    var begin, number, n, rest := FindBodySplits(buf);
    TakeBeyond(Header(begin, number), rest, k);
    FindBodyOf(begin, number, n, rest[..k - |Header(begin, number)|]);
  }

  /** Bytes that arrive later never move a frame end that was found. */
  lemma {:induction false} FrameEndStable(buf: bytes, more: bytes)
    requires FindFrameEnd(buf).FrameEnd?
    ensures FindFrameEnd(buf + more) == FindFrameEnd(buf)
  {
    FindBodyStable(buf, more);
  }

  lemma {:induction false} PanicStable(buf: bytes, more: bytes)
    requires FindFrameEnd(buf) == Panic
    ensures FindFrameEnd(buf + more) == Panic
  {
    FindBodyStable(buf, more);
  }

  /** What is cut off at a frame end is a frame by itself, and none of its proper prefixes is. */
  lemma {:induction false} FrameIsMinimal(buf: bytes)
    requires |buf| <= MAX_INT64 && FindFrameEnd(buf).FrameEnd?
    ensures var frame := buf[..FindFrameEnd(buf).end];
      IsFrame(FindFrameEnd, frame) && forall k :: 0 <= k < |frame| ==> FindFrameEnd(frame[..k]) == NoFrame
  {
    var frame := buf[..FindFrameEnd(buf).end];
    CutIsFrame(buf);
    forall k | 0 <= k < |frame| ensures FindFrameEnd(frame[..k]) == NoFrame {
      assert frame[..k] == buf[..k];
      NoFrameBefore(buf, k);
    }
  }

  lemma {:induction false} CutIsFrame(buf: bytes)
    requires |buf| <= MAX_INT64 && FindFrameEnd(buf).FrameEnd?
    ensures FindFrameEnd(buf).end <= |buf| && IsFrame(FindFrameEnd, buf[..FindFrameEnd(buf).end])
  {
    FindBodyPrefix(buf, FindFrameEnd(buf).end);
  }

  lemma {:induction false} NoFrameBefore(buf: bytes, k: nat)
    requires |buf| <= MAX_INT64 && FindFrameEnd(buf).FrameEnd? && k < FindFrameEnd(buf).end
    ensures FindFrameEnd(buf[..k]) == NoFrame
  {
    FindBodyPrefix(buf, k);
  }

  // ---- a frame built by hand ----

  lemma {:induction false} FrameEndAt(buf: bytes, body: BodySpan)
    requires FindBody(buf) == Some(body)
    requires body.start + body.length + TRAILER_LENGTH <= |buf|
    requires body.start + body.length + TRAILER_LENGTH <= MAX_INT64
    requires TrailerAt(buf, body.start + body.length)
    ensures FindFrameEnd(buf) == FrameEnd(body.start + body.length + TRAILER_LENGTH)
  {
  }

  lemma {:induction false} TrailerMoves(front: bytes, trailer: bytes, rest: bytes)
    requires |trailer| == TRAILER_LENGTH && TrailerAt(trailer, 0)
    ensures TrailerAt(front + trailer + rest, |front|)
  {
    var buf := front + trailer + rest;
    assert forall i :: 0 <= i < TRAILER_LENGTH ==> buf[|front| + i] == trailer[i];
  }

  /** A header whose number is read as the length of the body, the body, whatever it holds, and a trailer. */
  lemma {:induction false} FrameOfScanned(begin: bytes, number: bytes, body: bytes, trailer: bytes, rest: bytes)
    requires SOH !in begin && ScansTo(number, |body|) && |trailer| == TRAILER_LENGTH && TrailerAt(trailer, 0)
    requires |Header(begin, number) + body + trailer| <= MAX_INT64
    ensures var frame := Header(begin, number) + body + trailer;
      FindFrameEnd(frame + rest) == FrameEnd(|frame|)
  {
    var header := Header(begin, number);
    ConcatAssociative(header + body, trailer, rest);
    ConcatAssociative(header, body, trailer + rest);
    FindBodyOf(begin, number, |body|, body + (trailer + rest));
    TrailerMoves(header + body, trailer, rest);
    FrameEndAt(header + body + trailer + rest, BodySpan(|header|, |body|));
  }

  /** A header that states the true length of the body will do. */
  lemma {:induction false} FrameOf(begin: bytes, body: bytes, trailer: bytes, rest: bytes)
    requires SOH !in begin && |trailer| == TRAILER_LENGTH && TrailerAt(trailer, 0)
    requires |Header(begin, Itoa(|body|)) + body + trailer| <= MAX_INT64
    ensures var frame := Header(begin, Itoa(|body|)) + body + trailer;
      FindFrameEnd(frame + rest) == FrameEnd(|frame|)
  {
    ScanItoa(|body|);
    FrameOfScanned(begin, Itoa(|body|), body, trailer, rest);
  }

  /** "8=begin", SOH, "9=number", SOH, a body of that many bytes, "10=", three digits, SOH. */
  ghost predicate IsFixFrame(frame: bytes, begin: bytes, number: bytes, body: bytes, sum: bytes) {
    && 1 !in begin && 1 !in number && ScanInt(number) == Some(|body|)
    && |sum| == 3 && AllDigits(sum)
    && frame == [56, 61] + begin + [1] + ([57, 61] + number + [1]) + body + ([49, 48, 61] + sum + [1])
  }

  lemma {:induction false} FixFrameEnds(buf: bytes, e: nat, begin: bytes, number: bytes, body: bytes, sum: bytes)
    requires |buf| <= MAX_INT64 && e <= |buf| && IsFixFrame(buf[..e], begin, number, body, sum)
    ensures FindFrameEnd(buf) == FrameEnd(e)
  {
    TrailerAtStart(sum);
    FrameOfScanned(begin, number, body, [49, 48, 61] + sum + [1], buf[e..]);
    TakeAndDrop(buf, e);
  }

  lemma {:induction false} TrailerAtStart(sum: bytes)
    requires |sum| == 3 && AllDigits(sum)
    ensures var trailer := [49, 48, 61] + sum + [1];
      |trailer| == TRAILER_LENGTH && TrailerAt(trailer, 0)
  {
  }

  lemma {:induction false} TrailerIs(buf: bytes, pos: nat) returns (sum: bytes)
    requires pos + TRAILER_LENGTH <= |buf| && TrailerAt(buf, pos)
    ensures |sum| == 3 && AllDigits(sum) && buf[pos..pos + 7] == [49, 48, 61] + sum + [1]
  {
    sum := buf[pos + 3..pos + 6];
  }

  lemma {:induction false} CutInThree(buf: bytes, header: bytes, rest: bytes, n: nat)
    requires buf == header + rest && |header| + n + 7 <= |buf|
    ensures var end := |header| + n;
      buf[..end + 7] == header + buf[|header|..end] + buf[end..end + 7]
  {
  }

  lemma {:induction false} EndIsBehindTrailer(buf: bytes) returns (start: nat, length: nat, sum: bytes)
    requires |buf| <= MAX_INT64 && FindFrameEnd(buf).FrameEnd?
    ensures FindBody(buf) == Some(BodySpan(start, length)) && FindFrameEnd(buf).end == start + length + 7 <= |buf|
    ensures |sum| == 3 && AllDigits(sum) && buf[start + length..start + length + 7] == [49, 48, 61] + sum + [1]
  {
    start, length := FindBody(buf).value.start, FindBody(buf).value.length;
    sum := TrailerIs(buf, start + length);
  }

  lemma {:induction false} HeaderInFront(begin: bytes, number: bytes, body: bytes, sum: bytes)
    requires SOH !in begin && ScansTo(number, |body|) && |sum| == 3 && AllDigits(sum)
    ensures IsFixFrame(Header(begin, number) + body + ([49, 48, 61] + sum + [1]), begin, number, body, sum)
  {
  }

  lemma {:induction false} EndsFixFrame(buf: bytes) returns (begin: bytes, number: bytes, body: bytes, sum: bytes)
    requires |buf| <= MAX_INT64 && FindFrameEnd(buf).FrameEnd?
    ensures IsFixFrame(buf[..FindFrameEnd(buf).end], begin, number, body, sum)
  {
    var n, rest, start, length;
    begin, number, n, rest := FindBodySplits(buf);
    start, length, sum := EndIsBehindTrailer(buf);
    body := buf[start..start + length];
    CutInThree(buf, Header(begin, number), rest, n);
    HeaderInFront(begin, number, body, sum);
  }

  /** The finder reports an end exactly behind a complete FIX frame at the start of the buffer. */
  lemma {:induction false} FrameEndIff(buf: bytes, e: nat)
    requires |buf| <= MAX_INT64
    ensures FindFrameEnd(buf) == FrameEnd(e) <==>
      e <= |buf| && exists begin, number, body, sum :: IsFixFrame(buf[..e], begin, number, body, sum)
  {
    if FindFrameEnd(buf) == FrameEnd(e) {
      var begin, number, body, sum := EndsFixFrame(buf);
    } else if e <= |buf| && exists begin, number, body, sum :: IsFixFrame(buf[..e], begin, number, body, sum) {
      var begin, number, body, sum :| IsFixFrame(buf[..e], begin, number, body, sum);
      FixFrameEnds(buf, e, begin, number, body, sum);
    }
  }

  /** What the read loop needs from its frame finder. */
  lemma {:induction false} FinderIsScanner()
    ensures IsScanner(FindFrameEnd)
  {
    forall buf, more | FindFrameEnd(buf) != NoFrame
      ensures FindFrameEnd(buf + more) == FindFrameEnd(buf)
    {
      if FindFrameEnd(buf).FrameEnd? {
        FrameEndStable(buf, more);
      } else {
        PanicStable(buf, more);
      }
    }
  }
}
