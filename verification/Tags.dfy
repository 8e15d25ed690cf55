/**
 FIX tag numbers and the canonical field order: header tags first, in a fixed order,
 then body tags by number, then the trailer tags 93, 89 and 10.
 */
module Tags {
  import opened ByteStrings

  const BEGIN_STRING := 8
  const BODY_LENGTH := 9
  const CHECK_SUM := 10
  const MSG_TYPE := 35
  const SENDER_COMP_ID := 49
  const TARGET_COMP_ID := 56
  const MSG_SEQ_NUM := 34
  const SENDING_TIME := 52
  const POSS_DUP_FLAG := 43
  const ORIG_SENDING_TIME := 122
  const NEW_SEQ_NO := 36
  const GAP_FILL_FLAG := 123
  const BEGIN_SEQ_NO := 7
  const END_SEQ_NO := 16

  const HEADER_COUNT: int := 30

  /** HeaderTags: the i-th header tag. */
  function HeaderTag(i: nat): int
    requires i < HEADER_COUNT
  {
    match i
    case 0 => 8
    case 1 => 9
    case 2 => 35
    case 3 => 1128
    case 4 => 1156
    case 5 => 1129
    case 6 => 49
    case 7 => 56
    case 8 => 115
    case 9 => 128
    case 10 => 90
    case 11 => 91
    case 12 => 34
    case 13 => 50
    case 14 => 142
    case 15 => 57
    case 16 => 143
    case 17 => 116
    case 18 => 144
    case 19 => 129
    case 20 => 145
    case 21 => 43
    case 22 => 97
    case 23 => 52
    case 24 => 122
    case 25 => 212
    case 26 => 213
    case 27 => 347
    case 28 => 369
    case _ => 370
  }

  /** HeaderSortMap: the place of t in the header, or -1. */
  function HeaderPosition(t: int): (i: int)
    ensures -1 <= i < HEADER_COUNT
  {
    match t
    case 8 => 0
    case 9 => 1
    case 35 => 2
    case 1128 => 3
    case 1156 => 4
    case 1129 => 5
    case 49 => 6
    case 56 => 7
    case 115 => 8
    case 128 => 9
    case 90 => 10
    case 91 => 11
    case 34 => 12
    case 50 => 13
    case 142 => 14
    case 57 => 15
    case 143 => 16
    case 116 => 17
    case 144 => 18
    case 129 => 19
    case 145 => 20
    case 43 => 21
    case 97 => 22
    case 52 => 23
    case 122 => 24
    case 212 => 25
    case 213 => 26
    case 347 => 27
    case 369 => 28
    case 370 => 29
    case _ => -1
  }

  /** The key of tag 93; 89 and 10 follow it. */
  const TRAILER_KEY: int := 0x4000_0000 - 3

  /** trailerSortMap: the place of t in the trailer, or -1. */
  function TrailerPosition(t: int): (i: int)
    ensures -1 <= i < 3
  {
    match t
    case 93 => 0
    case 89 => 1
    case 10 => 2
    case _ => -1
  }

  /** The largest tag whose key stays below the trailer keys. */
  const MAX_TAG: int := TRAILER_KEY - 31

  /** Tags with a fixed place in the header or the trailer. */
  predicate Placed(t: int) {
    TrailerPosition(t) >= 0 || HeaderPosition(t) >= 0
  }

  /** tagSortKey in fixmsg, and tagKey in codec, which looks up the same tables. */
  function TagSortKey(t: int): int {
    if TrailerPosition(t) >= 0 then TRAILER_KEY + TrailerPosition(t)
    else if HeaderPosition(t) >= 0 then HeaderPosition(t)
    else AddInt64(HEADER_COUNT, t)
  }

  lemma {:induction false} HeaderTagAt(i: nat)
    requires i < HEADER_COUNT
    ensures HeaderPosition(HeaderTag(i)) == i && TrailerPosition(HeaderTag(i)) < 0
  {
  }

  lemma {:induction false} HeaderPositionOf(t: int)
    requires HeaderPosition(t) >= 0
    ensures HeaderTag(HeaderPosition(t)) == t && TrailerPosition(t) < 0
  {
  }

  /**
   BeginString, BodyLength, MsgType, the two CompIDs, MsgSeqNum, PossDupFlag and SendingTime in this order,
   then the fields of the body by number, then the two signature fields and CheckSum.
   */
  lemma {:induction false} UsualOrder(a: int, b: int)
    requires 1156 < a < b <= 0x4000_0000 - 34
    ensures TagSortKey(8) < TagSortKey(9) < TagSortKey(35) < TagSortKey(49) < TagSortKey(56) < TagSortKey(34)
            < TagSortKey(43) < TagSortKey(52) < TagSortKey(1) < TagSortKey(11) < TagSortKey(54) < TagSortKey(55)
            < TagSortKey(a) < TagSortKey(b) < TagSortKey(93) < TagSortKey(89) < TagSortKey(10)
  {
  }

  predicate InRange(t: int) {
    1 <= t <= MAX_TAG
  }

  /** t is a body tag whose number plus 30 falls on the key that belongs to placed. */
  predicate TakesKeyOf(t: int, placed: int) {
    && !Placed(t)
    && Placed(placed)
    && HEADER_COUNT + t == TagSortKey(placed)
  }

  /**
   Two 64-bit tags share a sort key exactly when one of them is a body tag whose
   number plus 30 falls on the key of a header or trailer tag.
   */
  lemma {:induction false} SortKeyCollision(a: int, b: int)
    requires MIN_INT64 <= a <= MAX_INT64 && MIN_INT64 <= b <= MAX_INT64
    ensures TagSortKey(a) == TagSortKey(b) <==> a == b || TakesKeyOf(a, b) || TakesKeyOf(b, a)
  {
    if HeaderPosition(a) >= 0 {
      HeaderPositionOf(a);
    }
    if HeaderPosition(b) >= 0 {
      HeaderPositionOf(b);
    }
  }

  /** A body tag takes a reserved key exactly when it lies in -30..-1 or in the three numbers above MAX_TAG. */
  lemma {:induction false} ReservedKeys(t: int)
    requires MIN_INT64 <= t <= MAX_INT64
    ensures (exists placed :: TakesKeyOf(t, placed)) <==>
      !Placed(t) && (-HEADER_COUNT <= t < 0 || MAX_TAG < t <= MAX_TAG + 3)
  {
    if -HEADER_COUNT <= t < 0 {
      HeaderTagAt(HEADER_COUNT + t);
      assert TakesKeyOf(t, HeaderTag(HEADER_COUNT + t)) <==> !Placed(t);
    }
    assert TakesKeyOf(t, 93) <==> t == MAX_TAG + 1;
    assert TakesKeyOf(t, 89) <==> t == MAX_TAG + 2;
    assert TakesKeyOf(t, 10) <==> t == MAX_TAG + 3;
  }

  /** On tags 1..2^30-34 the sort key is injective, so the canonical order is total. */
  lemma {:induction false} SortKeyInjective(a: int, b: int)
    requires InRange(a) && InRange(b)
    ensures TagSortKey(a) == TagSortKey(b) <==> a == b
  {
    SortKeyCollision(a, b);
    ReservedKeys(a);
    ReservedKeys(b);
  }
}
