/**
 The codec's parser: splitting a buffer into tag and value pairs, and rebuilding a
 message with its nested repeating groups from them.
 */
module Codecs {
  import opened Wrappers
  import opened ByteStrings
  import opened Fragments
  import opened Specs

  datatype Pair = Pair(tag: bytes, value: bytes)

  // ---- tokenise ----

  function PairOf(field: bytes): Option<Pair> {
    var i := IndexByte(field, EQUALS);
    if i < 0 then None else Some(Pair(field[..i], field[i + 1..]))
  }

  /** Empty fields are dropped; a field without '=' makes the whole buffer malformed. */
  function PairsOf(fields: seq<bytes>): Option<seq<Pair>> {
    if fields == [] then Some([])
    else if fields[0] == [] then PairsOf(fields[1..])
    else
      match PairOf(fields[0])
      case None => None
      case Some(pair) =>
        match PairsOf(fields[1..])
        case None => None
        case Some(pairs) => Some([pair] + pairs)
  }

  function Tokens(buf: bytes, sep: byte): Option<seq<Pair>> {
    PairsOf(Split(buf, sep))
  }

  // ---- parsing without a message spec ----

  function ParseFlat(pairs: seq<Pair>, msg: Fragment): Fragment {
    if pairs == [] then msg
    else
      match Atoi(pairs[0].tag)
      case None => ParseFlat(pairs[1..], msg)
      case Some(tag) => ParseFlat(pairs[1..], msg.Set(tag, pairs[0].value))
  }

  // ---- parsing with one ----

  /** The pairs a group leaves unread, and its members. */
  datatype GroupResult = GroupResult(rest: seq<Pair>, members: seq<Fragment>)

  function Close(members: seq<Fragment>, current: Option<Fragment>): seq<Fragment> {
    match current
    case None => members
    case Some(member) => members + [member]
  }

  /** parseGroup; absent when a nested count is not a number. */
  function ParseGroup(pairs: seq<Pair>, spec: GroupSpec, count: int): (r: Option<GroupResult>)
    ensures r.Some? ==> |r.value.rest| <= |pairs|
    decreases |pairs|, 1
  {
    if count == 0 then Some(GroupResult(pairs, [])) else GroupLoop(pairs, spec, count, [], None)
  }

  function GroupLoop(pairs: seq<Pair>, spec: GroupSpec, count: int, members: seq<Fragment>, current: Option<Fragment>)
    : (r: Option<GroupResult>)
    ensures r.Some? ==> |r.value.rest| <= |pairs|
    decreases |pairs|, 0
  {
    if pairs == [] || |members| >= count then Some(GroupResult(pairs, Close(members, current)))
    else
      match Atoi(pairs[0].tag)
      case None => Some(GroupResult(pairs, Close(members, current)))
      case Some(tag) =>
        var value := pairs[0].value;
        if tag == spec.firstTag then
          GroupLoop(pairs[1..], spec, count, Close(members, current), Some(EMPTY.Set(tag, value)))
        else if current.None? || tag !in spec.tags then
          Some(GroupResult(pairs, Close(members, current)))
        else if tag in spec.nestedGroups then
          var subSpec := spec.nestedGroups[tag];
          match ParseCounted(pairs[1..], subSpec, value)
          case None => None
          case Some(sub) =>
            var group := Group(tag, subSpec.firstTag, sub.members);
            GroupLoop(sub.rest, spec, count, members, Some(current.value.SetGroup(tag, group)))
        else
          GroupLoop(pairs[1..], spec, count, members, Some(current.value.Set(tag, value)))
  }

  /** A group behind its count; absent when the count is not a number. */
  function ParseCounted(pairs: seq<Pair>, spec: GroupSpec, count: bytes): (r: Option<GroupResult>)
    ensures r.Some? ==> |r.value.rest| <= |pairs|
    decreases |pairs|, 2
  {
    match Atoi(count)
    case None => None
    case Some(n) => ParseGroup(pairs, spec, n)
  }

  /** The message loop of Parse. */
  function MessageLoop(pairs: seq<Pair>, spec: MessageSpec, msg: Fragment): Option<Fragment>
    decreases |pairs|
  {
    if pairs == [] then Some(msg)
    else
      match Atoi(pairs[0].tag)
      case None => MessageLoop(pairs[1..], spec, msg)
      case Some(tag) =>
        var value := pairs[0].value;
        if tag in spec.groups then
          match ParseCounted(pairs[1..], spec.groups[tag], value)
          case None => None
          case Some(r) =>
            MessageLoop(r.rest, spec, msg.SetGroup(tag, Group(tag, spec.groups[tag].firstTag, r.members)))
        else
          MessageLoop(pairs[1..], spec, msg.Set(tag, value))
  }

  const MSG_TYPE_TEXT: bytes := [51, 53]
  const TYPE_LOOKUP_LIMIT := 6

  /** The value of the first tag 35 among the given pairs. */
  function FirstMsgType(pairs: seq<Pair>): Option<bytes> {
    if pairs == [] then None
    else if pairs[0].tag == MSG_TYPE_TEXT then Some(pairs[0].value)
    else FirstMsgType(pairs[1..])
  }

  function Prepend(pairs: seq<Pair>, rest: Option<seq<Pair>>): Option<seq<Pair>> {
    match rest
    case None => None
    case Some(more) => Some(pairs + more)
  }

  lemma {:induction false} PairsOfStep(fields: seq<bytes>, i: nat, pairs: seq<Pair>)
    requires i < |fields|
    ensures fields[i] == [] ==> PairsOf(fields[i..]) == PairsOf(fields[i + 1..])
    ensures fields[i] != [] && PairOf(fields[i]).None? ==> PairsOf(fields[i..]) == None
    ensures fields[i] != [] && PairOf(fields[i]).Some? ==>
      Prepend(pairs, PairsOf(fields[i..])) == Prepend(pairs + [PairOf(fields[i]).value], PairsOf(fields[i + 1..]))
  {
    assert fields[i..][1..] == fields[i + 1..];
    if fields[i] != [] && PairOf(fields[i]).Some? && PairsOf(fields[i + 1..]).Some? {
      var pair, more := PairOf(fields[i]).value, PairsOf(fields[i + 1..]).value;
      assert pairs + ([pair] + more) == (pairs + [pair]) + more;
    }
  }

  /** A separator that is one byte both as a byte and as a string. */
  type separator = b: byte | b < 128

  datatype Codec = Codec(spec: Option<FixSpec>, separator: separator, noGroups: bool) {

    /** A zero separator stands for SOH. */
    function Sep(): separator {
      if separator == 0 then SOH else separator
    }

    /** The message spec Parse works with; the type is looked for in the first six pairs. */
    function MessageSpecFor(pairs: seq<Pair>): Option<MessageSpec> {
      if noGroups || spec.None? then None
      else
        var limit := if |pairs| > TYPE_LOOKUP_LIMIT then TYPE_LOOKUP_LIMIT else |pairs|;
        match FirstMsgType(pairs[..limit])
        case None => None
        case Some(msgType) =>
          if msgType in spec.value.messagesByType then Some(spec.value.messagesByType[msgType]) else None
    }

    /** What Parse returns; absent when it returns an error. */
    function Parsed(buf: bytes): Option<Fragment> {
      match Tokens(buf, Sep())
      case None => None
      case Some(pairs) =>
        match MessageSpecFor(pairs)
        case None => Some(ParseFlat(pairs, EMPTY))
        case Some(msgSpec) => MessageLoop(pairs, msgSpec, EMPTY)
    }
  }

  /** codec.New(nil) */
  const PLAIN: Codec := Codec(None, SOH, false)

  // ---- the loops ----

  /** tokenise */
  method Tokenise(buf: bytes, sep: byte) returns (r: Option<seq<Pair>>)
    ensures r == Tokens(buf, sep)
  {
    var fields := Split(buf, sep);
    var pairs: seq<Pair> := [];
    assert fields[0..] == fields;
    assert Prepend([], PairsOf(fields)) == PairsOf(fields) by {
      if PairsOf(fields).Some? {
        assert [] + PairsOf(fields).value == PairsOf(fields).value;
      }
    }
    for i := 0 to |fields|
      invariant PairsOf(fields) == Prepend(pairs, PairsOf(fields[i..]))
    {
      PairsOfStep(fields, i, pairs);
      if fields[i] == [] {
        continue;
      }
      var idx := IndexByte(fields[i], EQUALS);
      if idx < 0 {
        return None;
      }
      pairs := pairs + [Pair(fields[i][..idx], fields[i][idx + 1..])];
    }
    assert fields[|fields|..] == [] && pairs + [] == pairs;
    return Some(pairs);
  }

  lemma {:induction false} GroupStep(pairs: seq<Pair>, at: nat, spec: GroupSpec, count: int,
                                     members: seq<Fragment>, current: Option<Fragment>, tag: int)
    requires at < |pairs| && |members| < count && Atoi(pairs[at].tag) == Some(tag)
    ensures tag == spec.firstTag ==>
      GroupLoop(pairs[at..], spec, count, members, current) ==
      GroupLoop(pairs[at + 1..], spec, count, Close(members, current), Some(EMPTY.Set(tag, pairs[at].value)))
    ensures tag != spec.firstTag && current.Some? && tag in spec.tags - spec.nestedGroups.Keys ==>
      GroupLoop(pairs[at..], spec, count, members, current) ==
      GroupLoop(pairs[at + 1..], spec, count, members, Some(current.value.Set(tag, pairs[at].value)))
  {
    assert pairs[at..][1..] == pairs[at + 1..];
    assert pairs[at..][0] == pairs[at];
  }

  /** A nested group: sub is what reading it gives. */
  lemma {:induction false} GroupStepNested(pairs: seq<Pair>, at: nat, spec: GroupSpec, count: int,
                                           members: seq<Fragment>, current: Fragment, tag: int,
                                           sub: Option<GroupResult>)
    requires at < |pairs| && |members| < count && Atoi(pairs[at].tag) == Some(tag)
    requires tag != spec.firstTag && tag in spec.tags && tag in spec.nestedGroups
    requires sub == ParseCounted(pairs[at + 1..], spec.nestedGroups[tag], pairs[at].value)
    ensures GroupLoop(pairs[at..], spec, count, members, Some(current)) ==
      if sub.None? then None
      else
        GroupLoop(sub.value.rest, spec, count, members,
                  Some(current.SetGroup(tag, Group(tag, spec.nestedGroups[tag].firstTag, sub.value.members))))
  {
    assert pairs[at..][1..] == pairs[at + 1..];
    assert pairs[at..][0] == pairs[at];
  }

  predicate GroupStops(pairs: seq<Pair>, at: nat, spec: GroupSpec, count: int, members: seq<Fragment>,
                       current: Option<Fragment>)
    requires at <= |pairs|
  {
    || at == |pairs|
    || |members| >= count
    || Atoi(pairs[at].tag).None?
    || (var tag := Atoi(pairs[at].tag).value; tag != spec.firstTag && (current.None? || tag !in spec.tags))
  }

  lemma {:induction false} GroupStop(pairs: seq<Pair>, at: nat, spec: GroupSpec, count: int,
                                     members: seq<Fragment>, current: Option<Fragment>)
    requires at <= |pairs| && GroupStops(pairs, at, spec, count, members, current)
    ensures GroupLoop(pairs[at..], spec, count, members, current) ==
      Some(GroupResult(pairs[at..], Close(members, current)))
  {
  }

  /** parseGroup, on the pairs from offset: whether it succeeds, the offset it stops at, and the members it read. */
  method ReadGroup(pairs: seq<Pair>, offset: nat, spec: GroupSpec, count: int)
    returns (ok: bool, end: nat, members: seq<Fragment>)
    requires offset <= |pairs|
    ensures offset <= end <= |pairs|
    ensures ParseGroup(pairs[offset..], spec, count) == if ok then Some(GroupResult(pairs[end..], members)) else None
    decreases |pairs| - offset, 1
  {
    ok, end, members := true, offset, [];
    if count == 0 {
      return;
    }
    ghost var goal := GroupLoop(pairs[offset..], spec, count, [], None);
    var current: Option<Fragment> := None;
    while end < |pairs| && |members| < count
      invariant offset <= end <= |pairs|
      invariant GroupLoop(pairs[end..], spec, count, members, current) == goal
    {
      var tag := Atoi(pairs[end].tag);
      if tag.None? || (tag.value != spec.firstTag && (current.None? || tag.value !in spec.tags)) {
        break;
      }
      ok, end, members, current := ReadPair(pairs, end, spec, count, members, current, tag.value);
      if !ok {
        return;
      }
    }
    GroupStop(pairs, end, spec, count, members, current);
    members := Close(members, current);
  }

  /** One turn of the loop of parseGroup: a new member, a field of the current member, or a nested group. */
  method ReadPair(pairs: seq<Pair>, at: nat, spec: GroupSpec, ghost count: int, before: seq<Fragment>,
                  open: Option<Fragment>, tag: int)
    returns (ok: bool, end: nat, members: seq<Fragment>, current: Option<Fragment>)
    requires at < |pairs| && |before| < count && Atoi(pairs[at].tag) == Some(tag)
    requires tag == spec.firstTag || (open.Some? && tag in spec.tags)
    ensures at < end <= |pairs|
    ensures GroupLoop(pairs[at..], spec, count, before, open)
         == if ok then GroupLoop(pairs[end..], spec, count, members, current) else None
    decreases |pairs| - at, 0
  {
    var value := pairs[at].value;
    ok, end, members, current := true, at + 1, before, open;
    if tag == spec.firstTag {
      GroupStep(pairs, at, spec, count, before, open, tag);
      members, current := Close(before, open), Some(EMPTY.Set(tag, value));
    } else if tag in spec.nestedGroups {
      var subSpec, subMembers := spec.nestedGroups[tag], [];
      ok, end, subMembers := ReadCounted(pairs, at + 1, subSpec, value);
      GroupStepNested(pairs, at, spec, count, before, open.value, tag,
                      if ok then Some(GroupResult(pairs[end..], subMembers)) else None);
      current := Some(open.value.SetGroup(tag, Group(tag, subSpec.firstTag, subMembers)));
    } else {
      GroupStep(pairs, at, spec, count, before, open, tag);
      current := Some(open.value.Set(tag, value));
    }
  }

  method ReadCounted(pairs: seq<Pair>, offset: nat, spec: GroupSpec, count: bytes)
    returns (ok: bool, end: nat, members: seq<Fragment>)
    requires offset <= |pairs|
    ensures offset <= end <= |pairs|
    ensures ParseCounted(pairs[offset..], spec, count) == if ok then Some(GroupResult(pairs[end..], members)) else None
    decreases |pairs| - offset, 2
  {
    var n := Atoi(count);
    if n.None? {
      return false, offset, [];
    }
    ok, end, members := ReadGroup(pairs, offset, spec, n.value);
  }

  /** The loop of Parse that stores every pair whose tag is a number. */
  method ReadFlat(pairs: seq<Pair>) returns (msg: Fragment)
    ensures msg == ParseFlat(pairs, EMPTY)
  {
    msg := EMPTY;
    assert pairs[0..] == pairs;
    for i := 0 to |pairs|
      invariant ParseFlat(pairs[i..], msg) == ParseFlat(pairs, EMPTY)
    {
      assert pairs[i..][1..] == pairs[i + 1..];
      var tag := Atoi(pairs[i].tag);
      if tag.Some? {
        msg := msg.Set(tag.value, pairs[i].value);
      }
    }
  }

  /** The loop of Parse that knows the message's groups. */
  method ReadMessage(pairs: seq<Pair>, spec: MessageSpec) returns (r: Option<Fragment>)
    ensures r == MessageLoop(pairs, spec, EMPTY)
  {
    var msg := EMPTY;
    var i := 0;
    assert pairs[0..] == pairs;
    while i < |pairs|
      invariant 0 <= i <= |pairs|
      invariant MessageLoop(pairs[i..], spec, msg) == MessageLoop(pairs, spec, EMPTY)
    {
      assert pairs[i..][1..] == pairs[i + 1..];
      var tag := Atoi(pairs[i].tag);
      if tag.None? {
        i := i + 1;
        continue;
      }
      if tag.value in spec.groups {
        var groupSpec := spec.groups[tag.value];
        var ok, end, members := ReadCounted(pairs, i + 1, groupSpec, pairs[i].value);
        if !ok {
          return None;
        }
        i := end;
        msg := msg.SetGroup(tag.value, Group(tag.value, groupSpec.firstTag, members));
      } else {
        msg := msg.Set(tag.value, pairs[i].value);
        i := i + 1;
      }
    }
    return Some(msg);
  }

  /** Codec.Parse */
  method Parse(codec: Codec, buf: bytes) returns (r: Option<Fragment>)
    ensures r == codec.Parsed(buf)
  {
    var tokens := Tokenise(buf, codec.Sep());
    if tokens.None? {
      return None;
    }
    var msgSpec := codec.MessageSpecFor(tokens.value);
    if msgSpec.None? {
      var msg := ReadFlat(tokens.value);
      return Some(msg);
    }
    r := ReadMessage(tokens.value, msgSpec.value);
  }

  function FlatOf(pairs: Option<seq<Pair>>, m: Fragment): Option<Fragment> {
    match pairs
    case None => None
    case Some(all) => Some(ParseFlat(all, m))
  }

  lemma {:induction false} FlatStep(fields: seq<bytes>, i: nat, m: Fragment)
    requires i < |fields|
    ensures var field, rest := fields[i], PairsOf(fields[i + 1..]);
      FlatOf(PairsOf(fields[i..]), m) ==
        if field == [] then FlatOf(rest, m)
        else if PairOf(field).None? then None
        else
          var pair := PairOf(field).value;
          FlatOf(rest, if Atoi(pair.tag).None? then m else m.Set(Atoi(pair.tag).value, pair.value))
  {
    assert fields[i..][1..] == fields[i + 1..];
    if fields[i] != [] && PairOf(fields[i]).Some? && PairsOf(fields[i + 1..]).Some? {
      var pair, more := PairOf(fields[i]).value, PairsOf(fields[i + 1..]).value;
      assert ([pair] + more)[1..] == more;
    }
  }

  /** codec.New(nil).Parse stores every pair, whatever the message type. */
  lemma {:induction false} PlainParsed(buf: bytes)
    ensures PLAIN.Parsed(buf) == FlatOf(Tokens(buf, SOH), EMPTY)
  {
  }

  /** defaultParse, which splits and stores in one pass; with PlainParsed it agrees with codec.New(nil).Parse. */
  method DefaultParse(buf: bytes) returns (r: Option<Fragment>)
    ensures r == FlatOf(Tokens(buf, SOH), EMPTY)
  {
    var m := EMPTY;
    if |buf| == 0 {
      assert PairsOf([[]]) == Some([]);
      return Some(m);
    }
    var fields := Split(buf, SOH);
    assert fields[0..] == fields;
    for i := 0 to |fields|
      invariant FlatOf(Tokens(buf, SOH), EMPTY) == FlatOf(PairsOf(fields[i..]), m)
    {
      FlatStep(fields, i, m);
      if fields[i] == [] {
        continue;
      }
      var pair := PairOf(fields[i]);
      if pair.None? {
        return None;
      }
      var tag := Atoi(pair.value.tag);
      if tag.None? {
        continue;
      }
      m := m.Set(tag.value, pair.value.value);
    }
    return Some(m);
  }

  // ---- what the parser makes of any text ----

  function NonEmpty(fields: seq<bytes>): seq<bytes> {
    if fields == [] then []
    else if fields[0] == [] then NonEmpty(fields[1..])
    else [fields[0]] + NonEmpty(fields[1..])
  }

  /** Each pair is a field cut at its first '='. */
  predicate Cut(pair: Pair, field: bytes) {
    61 !in pair.tag && field == pair.tag + [61] + pair.value
  }

  predicate HasEquals(fields: seq<bytes>) {
    forall i :: 0 <= i < |fields| ==> 61 in fields[i]
  }

  ghost predicate AllCut(pairs: seq<Pair>, fields: seq<bytes>) {
    |pairs| == |fields| && forall i :: 0 <= i < |pairs| ==> Cut(pairs[i], fields[i])
  }

  lemma {:induction false} HasEqualsCons(field: bytes, rest: seq<bytes>)
    ensures HasEquals([field] + rest) <==> 61 in field && HasEquals(rest)
  {
    var fields := [field] + rest;
    assert fields[0] == field && forall i :: 0 <= i < |rest| ==> fields[i + 1] == rest[i];
  }

  lemma {:induction false} PairOfCuts(field: bytes)
    ensures PairOf(field).Some? <==> 61 in field
    ensures PairOf(field).Some? ==> Cut(PairOf(field).value, field)
  {
    var at := IndexByte(field, EQUALS);
    if at >= 0 {
      assert field == field[..at] + [field[at]] + field[at + 1..];
    }
  }

  /** The text splits into pairs exactly if each field that is not empty has a '='; the pairs are those fields, cut. */
  lemma {:induction false} PairsAreFields(fields: seq<bytes>)
    ensures PairsOf(fields).Some? <==> HasEquals(NonEmpty(fields))
    ensures PairsOf(fields).Some? ==> AllCut(PairsOf(fields).value, NonEmpty(fields))
  {
    if fields != [] {
      PairsAreFields(fields[1..]);
      PairOfCuts(fields[0]);
      HasEqualsCons(fields[0], NonEmpty(fields[1..]));
    }
  }

  function Stored(pair: Pair, msg: Fragment): Fragment {
    match Atoi(pair.tag)
    case None => msg
    case Some(tag) => msg.Set(tag, pair.value)
  }

  /** Without a message spec a tag has the value of its last pair. */
  lemma {:induction false} LastPairWins(pairs: seq<Pair>, msg: Fragment, k: nat, tag: int)
    requires k < |pairs| && Atoi(pairs[k].tag) == Some(tag)
    requires forall j :: k < j < |pairs| ==> Atoi(pairs[j].tag) != Some(tag)
    ensures tag in ParseFlat(pairs, msg).fields && ParseFlat(pairs, msg).fields[tag] == Text(pairs[k].value)
    decreases |pairs|
  {
    if k == 0 {
      OtherTagsStay(pairs[1..], Stored(pairs[0], msg), tag);
    } else {
      LastPairWins(pairs[1..], Stored(pairs[0], msg), k - 1, tag);
    }
  }

  /** And a tag without a pair is not touched. */
  lemma {:induction false} OtherTagsStay(pairs: seq<Pair>, msg: Fragment, tag: int)
    requires forall j :: 0 <= j < |pairs| ==> Atoi(pairs[j].tag) != Some(tag)
    ensures tag in ParseFlat(pairs, msg).fields <==> tag in msg.fields
    ensures tag in msg.fields ==> ParseFlat(pairs, msg).fields[tag] == msg.fields[tag]
    decreases |pairs|
  {
    if pairs != [] {
      assert Atoi(pairs[0].tag) != Some(tag);
      OtherTagsStay(pairs[1..], Stored(pairs[0], msg), tag);
    }
  }

  lemma {:induction false} FirstTypeAt(pairs: seq<Pair>, k: nat)
    requires k < |pairs| && pairs[k].tag == [51, 53]
    requires forall j :: 0 <= j < k ==> pairs[j].tag != [51, 53]
    ensures FirstMsgType(pairs) == Some(pairs[k].value)
  {
    if k > 0 {
      assert pairs[0].tag != [51, 53];
      FirstTypeAt(pairs[1..], k - 1);
    }
  }

  lemma {:induction false} NoType(pairs: seq<Pair>)
    requires forall j :: 0 <= j < |pairs| ==> pairs[j].tag != [51, 53]
    ensures FirstMsgType(pairs) == None
  {
    if pairs != [] {
      assert pairs[0].tag != [51, 53];
      NoType(pairs[1..]);
    }
  }

  /** The first tag 35 decides how the message is read, but only from one of the first six places. */
  lemma {:induction false} TypeDecides(codec: Codec, pairs: seq<Pair>, k: nat)
    requires codec.spec.Some? && !codec.noGroups
    requires k < |pairs| && pairs[k].tag == [51, 53]
    requires forall j :: 0 <= j < k ==> pairs[j].tag != [51, 53]
    ensures codec.MessageSpecFor(pairs) ==
      if k < 6 && pairs[k].value in codec.spec.value.messagesByType
        then Some(codec.spec.value.messagesByType[pairs[k].value])
      else None
  {
    var limit := if |pairs| > 6 then 6 else |pairs|;
    if k < 6 {
      FirstTypeAt(pairs[..limit], k);
    } else {
      NoType(pairs[..limit]);
    }
  }

  /** A codec without a dictionary, or told to ignore groups, reads flat; its separator is SOH unless it has another. */
  lemma {:induction false} ReadsFlat(codec: Codec, buf: bytes)
    requires codec.noGroups || codec.spec.None?
    ensures codec.Parsed(buf) == FlatOf(Tokens(buf, if codec.separator == 0 then 1 else codec.separator), EMPTY)
  {
  }

  predicate CountsGroup(pair: Pair, spec: MessageSpec) {
    Atoi(pair.tag).Some? && Atoi(pair.tag).value in spec.groups
  }

  lemma {:induction false} UncountedStep(pairs: seq<Pair>, spec: MessageSpec, msg: Fragment)
    requires pairs != [] && !CountsGroup(pairs[0], spec)
    ensures MessageLoop(pairs, spec, msg) == MessageLoop(pairs[1..], spec, Stored(pairs[0], msg))
  {
  }

  /** Where no pair counts a group, a message spec changes nothing; pairs whose tag is no number are skipped. */
  lemma {:induction false} NoGroupIsFlat(pairs: seq<Pair>, spec: MessageSpec, msg: Fragment)
    requires forall i :: 0 <= i < |pairs| ==> !CountsGroup(pairs[i], spec)
    ensures MessageLoop(pairs, spec, msg) == Some(ParseFlat(pairs, msg))
    decreases |pairs|
  {
    if pairs != [] {
      UncountedStep(pairs, spec, msg);
      NoGroupIsFlat(pairs[1..], spec, Stored(pairs[0], msg));
    }
  }

  /** The message is refused if the first group that is counted has a count that is no number. */
  lemma {:induction false} BadCount(pairs: seq<Pair>, spec: MessageSpec, msg: Fragment, k: nat)
    requires k < |pairs| && CountsGroup(pairs[k], spec) && Atoi(pairs[k].value).None?
    requires forall i :: 0 <= i < k ==> !CountsGroup(pairs[i], spec)
    ensures MessageLoop(pairs, spec, msg) == None
    decreases k
  {
    if k > 0 {
      UncountedStep(pairs, spec, msg);
      BadCount(pairs[1..], spec, Stored(pairs[0], msg), k - 1);
    }
  }

  // ---- what a group reads from any pairs ----

  predicate OwnTag(spec: GroupSpec, tag: int) {
    tag == spec.firstTag || tag in spec.tags
  }

  /** A member of the group: it has the FirstTag, and no tag of anybody else. */
  ghost predicate MemberOf(spec: GroupSpec, member: Fragment) {
    spec.firstTag in member.fields && forall t :: t in member.fields ==> OwnTag(spec, t)
  }

  ghost predicate MembersOf(spec: GroupSpec, members: seq<Fragment>) {
    forall i :: 0 <= i < |members| ==> MemberOf(spec, members[i])
  }

  /** Nothing is left, or the next pair can not belong to the group. */
  predicate Foreign(spec: GroupSpec, rest: seq<Pair>) {
    rest == [] || Atoi(rest[0].tag).None? || Atoi(rest[0].tag).value != spec.firstTag
  }

  /** Behind a member, the next pair has a tag of the group neither. */
  predicate AllForeign(spec: GroupSpec, rest: seq<Pair>) {
    rest == [] || Atoi(rest[0].tag).None? || !OwnTag(spec, Atoi(rest[0].tag).value)
  }

  /** The last member of a group that is one too long was only begun. */
  predicate JustBegun(spec: GroupSpec, member: Fragment) {
    member.fields.Keys == {spec.firstTag}
  }

  /** How reading a group ends: how many members there are, and what is in front. */
  ghost predicate EndsRight(spec: GroupSpec, count: int, r: GroupResult) {
    && MembersOf(spec, r.members)
    && (|r.members| < count ==> Foreign(spec, r.rest) && (r.members != [] ==> AllForeign(spec, r.rest)))
    && |r.members| <= (if count < 0 then 0 else count + 1)
    && (|r.members| == count + 1 > 0 ==> JustBegun(spec, r.members[count]))
  }

  lemma {:induction false} MembersAppend(spec: GroupSpec, members: seq<Fragment>, member: Fragment)
    requires MembersOf(spec, members) && MemberOf(spec, member)
    ensures MembersOf(spec, members + [member])
  {
  }

  lemma {:induction false} FieldJoins(spec: GroupSpec, member: Fragment, tag: int, value: Value)
    requires MemberOf(spec, member) && OwnTag(spec, tag)
    ensures MemberOf(spec, Fragment(member.fields[tag := value]))
  {
  }

  /** What the loop holds: whole members, and the one that is being read. */
  ghost predicate Reading(spec: GroupSpec, count: int, members: seq<Fragment>, current: Option<Fragment>) {
    && MembersOf(spec, members)
    && (current.None? ==> members == [])
    && (current.Some? ==> MemberOf(spec, current.value) && 0 <= |members| <= count)
    && (current.Some? && |members| == count ==> JustBegun(spec, current.value))
  }

  lemma {:induction false} ReadingStops(pairs: seq<Pair>, spec: GroupSpec, count: int, members: seq<Fragment>,
                                        current: Option<Fragment>)
    requires Reading(spec, count, members, current)
    requires |members| < count ==> Foreign(spec, pairs) && (current.Some? ==> AllForeign(spec, pairs))
    ensures EndsRight(spec, count, GroupResult(pairs, Close(members, current)))
  {
    if current.Some? {
      MembersAppend(spec, members, current.value);
    }
  }

  lemma {:induction false} NextMember(spec: GroupSpec, count: int, members: seq<Fragment>, current: Option<Fragment>,
                                      value: bytes)
    requires Reading(spec, count, members, current) && |members| < count
    ensures Reading(spec, count, Close(members, current), Some(EMPTY.Set(spec.firstTag, value)))
  {
    if current.Some? {
      MembersAppend(spec, members, current.value);
    }
  }

  lemma {:induction false} LoopReads(pairs: seq<Pair>, spec: GroupSpec, count: int, members: seq<Fragment>,
                                     current: Option<Fragment>)
    requires Reading(spec, count, members, current)
    ensures var r := GroupLoop(pairs, spec, count, members, current);
      r.Some? ==> EndsRight(spec, count, r.value)
    decreases |pairs|
  {
    if pairs == [] || |members| >= count || Atoi(pairs[0].tag).None? {
      ReadingStops(pairs, spec, count, members, current);
    } else {
      var tag, value := Atoi(pairs[0].tag).value, pairs[0].value;
      if tag == spec.firstTag {
        NextMember(spec, count, members, current, value);
        LoopReads(pairs[1..], spec, count, Close(members, current), Some(EMPTY.Set(tag, value)));
      } else if current.None? || tag !in spec.tags {
        ReadingStops(pairs, spec, count, members, current);
      } else if tag in spec.nestedGroups {
        var sub := ParseCounted(pairs[1..], spec.nestedGroups[tag], value);
        if sub.Some? {
          var group := Group(tag, spec.nestedGroups[tag].firstTag, sub.value.members);
          FieldJoins(spec, current.value, tag, group);
          LoopReads(sub.value.rest, spec, count, members, Some(current.value.SetGroup(tag, group)));
        }
      } else {
        FieldJoins(spec, current.value, tag, Text(value));
        LoopReads(pairs[1..], spec, count, members, Some(current.value.Set(tag, value)));
      }
    }
  }

  /**
   Whatever the pairs are: each member has the FirstTag and only tags of the group; reading stops early
   only in front of a pair that can not belong to the group; and there is at most one member more than
   the count says, which then was only begun.
   */
  lemma {:induction false} GroupReads(pairs: seq<Pair>, spec: GroupSpec, count: int)
    ensures var r := ParseGroup(pairs, spec, count);
      r.Some? ==> EndsRight(spec, count, r.value)
  {
    if count != 0 {
      LoopReads(pairs, spec, count, [], None);
    }
  }

  /** How many FirstTags there are among the leading pairs with a tag of the group. */
  function LeadingFirstTags(pairs: seq<Pair>, spec: GroupSpec): nat {
    if AllForeign(spec, pairs) then 0
    else (if Atoi(pairs[0].tag).value == spec.firstTag then 1 else 0) + LeadingFirstTags(pairs[1..], spec)
  }

  function Least(a: int, b: int): int {
    if a <= b then a else b
  }

  /** One if the pair begins a member. */
  function Begins(pair: Pair, spec: GroupSpec): nat {
    if Atoi(pair.tag) == Some(spec.firstTag) then 1 else 0
  }

  lemma {:induction false} OneTurn(pairs: seq<Pair>, spec: GroupSpec, count: int, members: seq<Fragment>,
                                   current: Option<Fragment>) returns (done: seq<Fragment>, next: Fragment)
    requires spec.nestedGroups == map[] && |members| < count && !AllForeign(spec, pairs)
    requires current.None? ==> Begins(pairs[0], spec) == 1
    ensures GroupLoop(pairs, spec, count, members, current) == GroupLoop(pairs[1..], spec, count, done, Some(next))
    ensures |done| == |members| + if current.None? then 0 else Begins(pairs[0], spec)
  {
    var tag, value := Atoi(pairs[0].tag).value, pairs[0].value;
    if tag == spec.firstTag {
      done, next := Close(members, current), EMPTY.Set(tag, value);
    } else {
      done, next := members, current.value.Set(tag, value);
    }
  }

  lemma {:induction false} LeadingStep(pairs: seq<Pair>, spec: GroupSpec)
    requires !AllForeign(spec, pairs)
    ensures LeadingFirstTags(pairs, spec) == Begins(pairs[0], spec) + LeadingFirstTags(pairs[1..], spec)
  {
  }

  lemma {:induction false} LoopCounts(pairs: seq<Pair>, spec: GroupSpec, count: int, members: seq<Fragment>,
                                      current: Fragment, r: Option<GroupResult>)
    requires spec.nestedGroups == map[] && |members| <= count
    requires r == GroupLoop(pairs, spec, count, members, Some(current))
    ensures r.Some? && |r.value.members| == Least(|members| + 1 + LeadingFirstTags(pairs, spec), count + 1)
    decreases |pairs|
  {
    if |members| >= count || AllForeign(spec, pairs) {
      assert pairs[0..] == pairs;
      GroupStop(pairs, 0, spec, count, members, Some(current));
    } else {
      var done, next := OneTurn(pairs, spec, count, members, Some(current));
      LeadingStep(pairs, spec);
      LoopCounts(pairs[1..], spec, count, done, next, r);
    }
  }

  /**
   A group without groups inside has as many members as FirstTags follow its count, but not more than one
   above the count: so it keeps to its count exactly if there are no more FirstTags than that.
   */
  lemma {:induction false} MembersCountedIff(pairs: seq<Pair>, spec: GroupSpec, count: int)
    requires spec.nestedGroups == map[] && count > 0
    requires pairs != [] && Atoi(pairs[0].tag) == Some(spec.firstTag)
    ensures var r := ParseGroup(pairs, spec, count);
      && r.Some?
      && |r.value.members| == Least(LeadingFirstTags(pairs, spec), count + 1)
      && (|r.value.members| <= count <==> LeadingFirstTags(pairs, spec) <= count)
  {
    var done, next := OneTurn(pairs, spec, count, [], None);
    LeadingStep(pairs, spec);
    LoopCounts(pairs[1..], spec, count, done, next, ParseGroup(pairs, spec, count));
  }

  /** A group that is counted as one member and followed by a second FirstTag is read as two. */
  lemma {:induction false} OvercountExample(spec: GroupSpec, a: bytes, b: bytes, rest: seq<Pair>)
    requires MIN_INT64 <= spec.firstTag <= MAX_INT64
    ensures var tag := Itoa(spec.firstTag);
      ParseGroup([Pair(tag, a), Pair(tag, b)] + rest, spec, 1) ==
      Some(GroupResult(rest, [EMPTY.Set(spec.firstTag, a), EMPTY.Set(spec.firstTag, b)]))
  {
    var first, second := Pair(Itoa(spec.firstTag), a), Pair(Itoa(spec.firstTag), b);
    var pairs := [first, second] + rest;
    AtoiItoa(spec.firstTag);
    var begun, next := EMPTY.Set(spec.firstTag, a), EMPTY.Set(spec.firstTag, b);
    assert Close([], Some(begun)) == [begun];
    GroupStep(pairs, 0, spec, 1, [], None, spec.firstTag);
    GroupStep(pairs, 1, spec, 1, [], Some(begun), spec.firstTag);
    assert pairs[0..] == pairs && pairs[2..] == rest;
    assert [begun] + [next] == [begun, next];
  }
}
