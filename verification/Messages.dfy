/** FixMessage: stamping, printing and loading a message, and the frames ToWire prints. */
module Messages {
  import opened Wrappers
  import opened ByteStrings
  import opened Tags
  import opened Fragments
  import opened Codecs
  import opened Streams
  import opened Framing
  import opened RoundTrips
  import opened Wire

  /** Codec.Serialise */
  method Serialise(codec: Codec, f: Fragment) returns (b: bytes)
    ensures b == Render(FragmentFields(f), codec.Sep())
  {
    var buf := new Builder();
    WriteFragment(buf, f, codec.Sep());
    b := buf.content;
  }

  /** defaultSerialise prints what a codec with separator SOH prints. */
  method DefaultSerialise(f: Fragment) returns (b: bytes)
    ensures b == Render(FragmentFields(f), SOH)
  {
    var buf := new Builder();
    DefaultWriteFragment(buf, f);
    b := buf.content;
  }

  /** The separator a message is printed with: its codec's, or SOH without a codec. */
  function SepOf(codec: Option<Codec>): byte {
    if codec.Some? then codec.value.Sep() else SOH
  }

  /** The bytes ToWire returns. */
  ghost function Printed(f: Fragment, codec: Option<Codec>): bytes {
    Render(FragmentFields(Stamped(f)), SepOf(codec))
  }

  class FixMessage {
    var content: Fragment
    var codec: Option<Codec>

    constructor (content: Fragment, codec: Option<Codec>)
      ensures this.content == content && this.codec == codec
    {
      this.content, this.codec := content, codec;
    }

    /** Computes BodyLength and CheckSum and stores them in the message. */
    method SetLenAndChecksum()
      modifies this`content
      ensures content == Stamped(old(content))
    {
      content := Wire.SetLenAndChecksum(content);
    }

    /** Stamps the message and prints it, with the codec's separator if there is a codec. */
    method ToWire() returns (b: bytes)
      modifies this`content
      ensures content == Stamped(old(content))
      ensures b == Printed(old(content), codec)
    {
      SetLenAndChecksum();
      if codec.Some? {
        b := Serialise(codec.value, content);
      } else {
        b := DefaultSerialise(content);
      }
    }

    /** Parses a buffer over the fields the message holds; nothing changes when the buffer is malformed. */
    method LoadFix(buf: bytes) returns (ok: bool)
      modifies this`content
      ensures var parsed := (if codec.Some? then codec.value else PLAIN).Parsed(buf);
        && ok == parsed.Some?
        && content == if ok then Merged(old(content), parsed.value) else old(content)
    {
      var parsed: Option<Fragment>;
      if codec.Some? {
        parsed := Parse(codec.value, buf);
      } else {
        parsed := DefaultParse(buf);
        PlainParsed(buf);
      }
      if parsed.None? {
        return false;
      }
      content := Merged(content, parsed.value);
      return true;
    }
  }

  lemma {:induction false} RenderEnds(fields: seq<Field>, sep: byte)
    requires fields != []
    ensures Render(fields, sep) != [] && Render(fields, sep)[|Render(fields, sep)| - 1] == sep
    decreases |fields|
  {
    if |fields| > 1 {
      RenderEnds(fields[1..], sep);
    } else {
      assert Render(fields[1..], sep) == [];
    }
  }

  lemma {:induction false} OrderHasFields(order: seq<int>, f: Fragment)
    requires (forall t :: t in order ==> t in f.fields) && order != []
    ensures OrderFields(order, f) != []
  {
  }

  /** What is printed ends in the separator of the codec, which is SOH without a codec and for a zero separator. */
  lemma {:induction false} PrintedEnds(f: Fragment, codec: Option<Codec>)
    ensures Printed(f, codec) != []
    ensures Printed(f, codec)[|Printed(f, codec)| - 1] ==
      if codec.Some? && codec.value.separator != 0 then codec.value.separator else 1
  {
    var s := Stamped(f);
    assert BODY_LENGTH in SortedTags(s.fields.Keys);
    OrderHasFields(SortedTags(s.fields.Keys), s);
    RenderEnds(FragmentFields(Stamped(f)), SepOf(codec));
  }

  // ---- does LoadFix replace what the message holds? ----

  /** The parsed fields stored over the ones that were there. */
  function Merged(held: Fragment, parsed: Fragment): Fragment {
    Fragment(held.fields + parsed.fields)
  }

  /** The message holds what was parsed, and nothing else, exactly if every tag it held before was parsed again. */
  lemma {:induction false} ReplacesIff(held: Fragment, parsed: Fragment)
    ensures Merged(held, parsed) == parsed <==> held.fields.Keys <= parsed.fields.Keys
  {
    if Merged(held, parsed) == parsed {
      assert forall t :: t in held.fields ==> t in Merged(held, parsed).fields;
    } else {
      assert Merged(held, parsed).fields != parsed.fields;
    }
  }

  /** A message that holds tag 11 still holds it after loading a buffer with tag 55 alone. */
  lemma {:induction false} MergeExample(a: bytes, b: bytes)
    requires SOH !in b
    ensures var held, buf := EMPTY.Set(11, a), Render([Field(55, b)], SOH);
      PLAIN.Parsed(buf) == Some(EMPTY.Set(55, b)) && Merged(held, EMPTY.Set(55, b)).Get(11) == Some(a)
  {
    var f := EMPTY.Set(55, b);
    SortedTagsAre(f.fields.Keys, [55]);
    TextField(55, f);
    FlatRoundTrip(PLAIN, f);
  }

  // ---- what the frame finder makes of a printed message ----

  /** A message ToWire prints as one FIX frame. */
  ghost predicate Sendable(f: Fragment) {
    && Framable(f)
    && SOH !in f.GetOrEmpty(BEGIN_STRING)
    && |WireBytes(f)| <= MAX_INT64
  }

  lemma {:induction false} PrefixIsHeader(f: Fragment)
    ensures Prefix(f) == Header(f.GetOrEmpty(BEGIN_STRING), Itoa(|Body(f)|))
  {
    var begin := Field(BEGIN_STRING, f.GetOrEmpty(BEGIN_STRING));
    var length := Field(BODY_LENGTH, Itoa(|Body(f)|));
    TwoFields(begin, length);
    FirstTwoTags();
  }

  lemma {:induction false} TwoFields(a: Field, b: Field)
    ensures Render([a, b], SOH) == RenderField(a, SOH) + RenderField(b, SOH)
  {
    assert [a, b][1..] == [b];
    assert Render([b], SOH) == RenderField(b, SOH);
  }

  lemma {:induction false} FirstTwoTags()
    ensures Itoa(BEGIN_STRING) + [EQUALS] == TAG_8_PREFIX && Itoa(BODY_LENGTH) + [EQUALS] == TAG_9_PREFIX
  {
  }

  /**
   The frame finder cuts a printed message exactly at its end, whatever bytes its values hold and
   whatever follows.
   */
  lemma {:induction false} PrintedMessageIsFramed(f: Fragment, rest: bytes)
    requires Sendable(f)
    ensures FindFrameEnd(WireBytes(f) + rest) == FrameEnd(|WireBytes(f)|)
  {
    var trailer := RenderField(Field(CHECK_SUM, CheckSum(f)), SOH);
    WireShape(f);
    PrefixIsHeader(f);
    TrailerShape(f);
    FrameOf(f.GetOrEmpty(BEGIN_STRING), Body(f), trailer, rest);
  }

  lemma {:induction false} TrailerShape(f: Fragment)
    ensures var trailer := RenderField(Field(CHECK_SUM, CheckSum(f)), SOH);
      |trailer| == TRAILER_LENGTH && TrailerAt(trailer, 0)
  {
    assert Digits(1) == [49] && Itoa(CHECK_SUM) == [49, 48];
  }

  lemma {:induction false} PrintedMessageIsFrame(f: Fragment)
    requires Sendable(f)
    ensures IsFrame(FindFrameEnd, WireBytes(f))
  {
    PrintedMessageIsFramed(f, []);
    assert WireBytes(f) + [] == WireBytes(f);
  }

  /** A message without groups whose values hold no SOH. */
  ghost predicate Flat(f: Fragment) {
    FlatAndClean(f, SOH)
  }

  lemma {:induction false} StampedIsFlat(f: Fragment)
    requires Flat(f)
    ensures Flat(Stamped(f))
  {
    assert forall t :: t in Stamped(f).fields ==> t == BODY_LENGTH || t == CHECK_SUM || t in f.fields;
    assert SOH !in Itoa(|Body(f)|) && SOH !in CheckSum(f);
  }

  /** Parsing a printed flat message without a dictionary gives its fields, with true BodyLength and CheckSum. */
  lemma {:induction false} PrintedMessageParses(f: Fragment)
    requires Flat(f)
    ensures PLAIN.Parsed(WireBytes(f)) == Some(Stamped(f))
  {
    StampedIsFlat(f);
    FlatRoundTrip(PLAIN, Stamped(f));
  }

  // ---- what the parser without a dictionary returns ----

  predicate CleanPairs(pairs: seq<Pair>) {
    forall i :: 0 <= i < |pairs| ==> SOH !in pairs[i].value
  }

  lemma {:induction false} PairsOfClean(fields: seq<bytes>)
    requires forall i :: 0 <= i < |fields| ==> SOH !in fields[i]
    ensures PairsOf(fields).Some? ==> CleanPairs(PairsOf(fields).value)
    decreases |fields|
  {
    if fields == [] {
    } else {
      PairsOfClean(fields[1..]);
      PairIsClean(fields[0]);
      if PairsOf(fields).Some? && fields[0] != [] {
        CleanPairsCons(PairOf(fields[0]).value, PairsOf(fields[1..]).value);
      }
    }
  }

  lemma {:induction false} PairIsClean(field: bytes)
    requires SOH !in field
    ensures PairOf(field).Some? ==> SOH !in PairOf(field).value.value
  {
    var i := IndexByte(field, EQUALS);
    if i >= 0 {
      assert SOH !in field[i + 1..];
    }
  }

  lemma {:induction false} CleanPairsCons(pair: Pair, pairs: seq<Pair>)
    requires SOH !in pair.value && CleanPairs(pairs)
    ensures CleanPairs([pair] + pairs)
  {
  }

  lemma {:induction false} ParseFlatIsFlat(pairs: seq<Pair>, msg: Fragment)
    requires CleanPairs(pairs) && Flat(msg)
    ensures Flat(ParseFlat(pairs, msg))
  {
    if pairs == [] {
    } else {
      var tag := Atoi(pairs[0].tag);
      if tag.Some? {
        SetIsFlat(msg, tag.value, pairs[0].value);
        ParseFlatIsFlat(pairs[1..], msg.Set(tag.value, pairs[0].value));
      } else {
        ParseFlatIsFlat(pairs[1..], msg);
      }
    }
  }

  lemma {:induction false} SetIsFlat(f: Fragment, tag: int, text: bytes)
    requires Flat(f) && SOH !in text && MIN_INT64 <= tag <= MAX_INT64
    ensures Flat(f.Set(tag, text))
  {
  }

  /**
   Whatever it reads, the result is flat; printing it and parsing again gives it back with true
   BodyLength and CheckSum.
   */
  lemma {:induction false} ParsedIsFlat(buf: bytes)
    requires PLAIN.Parsed(buf).Some?
    ensures Flat(PLAIN.Parsed(buf).value)
  {
    SplitClean(buf, SOH);
    PairsOfClean(Split(buf, SOH));
    ParseFlatIsFlat(Tokens(buf, SOH).value, EMPTY);
  }
}
