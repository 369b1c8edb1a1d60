/** Messages between actor systems, as bytes. */
module ActorMessages {
  import opened Bytes
  import opened ConfigTree
  import opened Options
  import opened RawCodec
  import opened RawReading
  import opened RawStream

  /** The sender's address is an IP, which stays an opaque number here, and a port. */
  datatype Message = Message(kind: byte, uid: nat, ip: nat, port: nat, actorName: string, content: Option<Node>)

  ghost predicate Sendable(m: Message) {
    && m.uid < LONG && m.port < 0x10000 && ByteChars(m.actorName) && |m.actorName| < WORD
    && (m.content.Some? ==> Encodable(m.content.value))
  }

  ghost function Serialized(m: Message): seq<byte>
    requires Sendable(m)
  {
    [m.kind] + (Le(m.uid, 8) + (Le(m.port, 4) + (Le(|m.actorName|, 4) + (ToBytes(m.actorName) + SerializedContent(m.content)))))
  }

  ghost function SerializedContent(content: Option<Node>): seq<byte>
    requires content.Some? ==> Encodable(content.value)
  {
    if content.None? then [0] else [1] + Encoded(content.value)
  }

  /** What is read from the bytes of a message; the IP is the one they came from. */
  function Deserialized(origin: nat, b: seq<byte>, len: nat): Read<Message> {
    match Take(b, len, 1)
    case Failed(f) => Failed(f)
    case Got(kind, b1, l1) =>
      match Take(b1, l1, 8)
      case Failed(f) => Failed(f)
      case Got(uid, b2, l2) =>
        match TakeU32(b2, l2)
        case Failed(f) => Failed(f)
        case Got(port, b3, l3) =>
          match TakeString(b3, l3)
          case Failed(f) => Failed(f)
          case Got(name, b4, l4) =>
            match ParseContent(b4, l4)
            case Failed(f) => Failed(f)
            case Got(content, b5, l5) => Got(Message(kind[0], FromLe(uid), origin, port % 0x10000, name, content), b5, l5)
  }

  function ParseContent(b: seq<byte>, len: nat): Read<Option<Node>> {
    match Take(b, len, 1)
    case Failed(f) => Failed(f)
    case Got(flag, rest, l) =>
      if flag[0] == 0 then Got(None, rest, l)
      else match Parse(rest, l) { case Failed(f) => Failed(f) case Got(v, r, l') => Got(Some(v), r, l') }
  }

  lemma U64Back(v: nat)
    requires v < LONG
    ensures FromLe(Le(v, 8)) == v
  {
    LeRead(v, 8);
    Pow256Of8();
    SmallMod(v, LONG);
  }

  /** What the reader does on a message. */
  ghost function MessageSteps(m: Message): seq<Step> {
    [Bytes(1), Bytes(8), Bytes(4)] + ([Bytes(4), Bytes(|m.actorName|)] + ContentSteps(m.content))
  }

  ghost function ContentSteps(content: Option<Node>): seq<Step> {
    [Bytes(1)] + if content.None? then [] else Steps(content.value)
  }

  lemma ContentRead(content: Option<Node>, b: seq<byte>, len: nat)
    requires content.Some? ==> Encodable(content.value)
    requires Agree(b, SerializedContent(content)) && len + |SerializedContent(content)| < WORD
    ensures Reads(ParseContent(b, len), Checked(ContentSteps(content), |b|, len), content, |SerializedContent(content)|, b, len)
  {
    hide Take, Parse, Encoded, Encodable, Agree, Steps;
    var body := if content.None? then [] else Encoded(content.value);
    var flag: byte := if content.None? then 0 else 1;
    assert SerializedContent(content) == [flag] + body;
    TakeStep(b, [flag], body, len);
    var more := if content.None? then [] else Steps(content.value);
    assert ContentSteps(content)[1..] == more;
    if 1 <= |b| && 1 <= len && content.Some? {
      EncodedSteps(content.value, b[1..], len + 1);
      SettledIsSame(content.value);
      assert |body| <= |b| - 1 ==> b[1..][|body|..] == b[1 + |body|..];
    }
  }

  /** The fixed part of a message before its name. */
  lemma HeadRead(m: Message, origin: nat, b: seq<byte>, len: nat, more: seq<Step>, y: seq<byte>)
    requires Sendable(m) && Agree(b, [m.kind] + (Le(m.uid, 8) + (Le(m.port, 4) + y))) && len + 13 < WORD
    ensures match Checked([Bytes(1), Bytes(8), Bytes(4)], |b|, len)
      case Some(f) => Deserialized(origin, b, len) == Failed(f) && Checked([Bytes(1), Bytes(8), Bytes(4)] + more, |b|, len) == Some(f)
      case None =>
        && 13 <= |b| && Agree(b[13..], y)
        && Checked([Bytes(1), Bytes(8), Bytes(4)] + more, |b|, len) == Checked(more, |b| - 13, len + 13)
        && Deserialized(origin, b, len) == AfterHead(m, origin, b[13..], len + 13)
  {
    hide Take, TakeU32, TakeString, ParseContent, Le, Encodable, SerializedContent, ByteChars, FromLe, Agree;
    var steps := [Bytes(1), Bytes(8), Bytes(4)];
    CheckedAppend(steps, more, |b|, len);
    assert steps[1..] == [Bytes(8), Bytes(4)] && steps[1..][1..] == [Bytes(4)] && steps[1..][1..][1..] == [];
    assert Total(steps) == 13 by {
      assert Total([Bytes(4)][1..]) == 0;
      assert Total([Bytes(8), Bytes(4)]) == 8 + Total([Bytes(4)]);
    }
    var b3 := Le(m.port, 4) + y;
    TakeStep(b, [m.kind], Le(m.uid, 8) + b3, len);
    assert Checked(steps, |b|, len) ==
      if len < 1 then Some(Corrupted) else if |b| < 1 then Some(Overrun) else Checked([Bytes(8), Bytes(4)], |b| - 1, len + 1);
    if 1 <= |b| && 1 <= len {
      TakeStep(b[1..], Le(m.uid, 8), b3, len + 1);
      assert [Bytes(8), Bytes(4)][1..] == [Bytes(4)];
      assert Checked([Bytes(8), Bytes(4)], |b| - 1, len + 1) ==
        if len < 7 then Some(Corrupted) else if |b| < 9 then Some(Overrun) else Checked([Bytes(4)], |b| - 9, len + 9);
      if 9 <= |b| && 7 <= len {
        assert b[1..][8..] == b[9..];
        TakeU32Step(b[9..], m.port, y, len + 9);
        assert [Bytes(4)][1..] == [];
        assert Checked([Bytes(4)], |b| - 9, len + 9) == if |b| < 13 then Some(Overrun) else None;
        assert 13 <= |b| ==> b[9..][4..] == b[13..];
        U64Back(m.uid);
        SmallMod(m.port, 0x10000);
      }
    }
  }

  /** The name and the content of a message. */
  function AfterHead(m: Message, origin: nat, b: seq<byte>, len: nat): Read<Message> {
    match TakeString(b, len)
    case Failed(f) => Failed(f)
    case Got(name, b4, l4) =>
      match ParseContent(b4, l4)
      case Failed(f) => Failed(f)
      case Got(content, b5, l5) => Got(Message(m.kind, m.uid, origin, m.port, name, content), b5, l5)
  }

  /** The reader's steps on a serialized message, or on what is left of one. */
  lemma SerializedSteps(m: Message, origin: nat, b: seq<byte>, len: nat)
    requires Sendable(m) && Agree(b, Serialized(m)) && len + |Serialized(m)| < WORD
    ensures Reads(Deserialized(origin, b, len), Checked(MessageSteps(m), |b|, len), m.(ip := origin), |Serialized(m)|, b, len)
  {
    hide Take, TakeU32, TakeString, ParseContent, Le, ToBytes, Encodable, SerializedContent, ContentSteps, ByteChars, Agree, Deserialized, Checked;
    var n, y := |m.actorName|, SerializedContent(m.content);
    HeadRead(m, origin, b, len, [Bytes(4), Bytes(n)] + ContentSteps(m.content), Le(n, 4) + (ToBytes(m.actorName) + y));
    if Checked([Bytes(1), Bytes(8), Bytes(4)], |b|, len) == None {
      var b' := b[13..];
      KeySteps(m.actorName, y, ContentSteps(m.content), b', len + 13);
      if Checked([Bytes(4), Bytes(n)], |b'|, len + 13) == None {
        assert b'[4 + n..] == b[17 + n..];
        ContentRead(m.content, b[17 + n..], len + 17 + n);
        assert 17 + n + |y| <= |b| ==> b[17 + n..][|y|..] == b[17 + n + |y|..];
      }
    }
  }

  lemma ContentStepsAreBytes(content: Option<Node>)
    requires content.Some? ==> Encodable(content.value)
    ensures content.None? || Limited(content.value) <==> Refusal !in ContentSteps(content)
    ensures Total(ContentSteps(content)) <= |SerializedContent(content)|
  {
    hide Encoded, Encodable, Steps, Limited;
    if content.Some? { StepsAreBytes(content.value); }
    HeadTotal([Bytes(1)], if content.None? then [] else Steps(content.value));
  }

  lemma MessageStepsAreBytes(m: Message)
    requires Sendable(m)
    ensures m.content.None? || Limited(m.content.value) <==> Refusal !in MessageSteps(m)
    ensures Total(MessageSteps(m)) <= |Serialized(m)|
  {
    hide Le, ToBytes, Encodable, Limited, ByteChars, ContentSteps, SerializedContent;
    var end := ContentSteps(m.content);
    ContentStepsAreBytes(m.content);
    HeadTotal([Bytes(4), Bytes(|m.actorName|)], end);
    ThreeSteps([Bytes(4), Bytes(|m.actorName|)] + end);
  }

  lemma ThreeSteps(more: seq<Step>)
    ensures Total([Bytes(1), Bytes(8), Bytes(4)] + more) == 13 + Total(more)
    ensures Refusal in [Bytes(1), Bytes(8), Bytes(4)] + more <==> Refusal in more
  {
    HeadTotal([Bytes(8), Bytes(4)], more);
    HeadTotal([Bytes(1)], [Bytes(8), Bytes(4)] + more);
    assert [Bytes(1)] + ([Bytes(8), Bytes(4)] + more) == [Bytes(1), Bytes(8), Bytes(4)] + more;
  }

  /** Deserializing a serialized message gives it back, but for the IP, which becomes the origin; it is
      rejected exactly when its content is over the limits. */
  lemma SerializedIsRead(m: Message, origin: nat)
    requires Sendable(m) && 2 * |Serialized(m)| < WORD
    ensures var b := Serialized(m);
      Deserialized(origin, b, |b|) ==
        if m.content.None? || Limited(m.content.value) then Got(m.(ip := origin), [], 2 * |b|) else Failed(Rejected)
  {
    hide Serialized, Deserialized, MessageSteps, Sendable, Limited;
    var b := Serialized(m);
    SerializedSteps(m, origin, b, |b|);
    MessageStepsAreBytes(m);
    EnoughBytes(MessageSteps(m), |b|, |b|);
  }

  /** A message that is cut short anywhere is never taken for a message; what its steps run into says
      how reading it fails. */
  lemma TruncatedMessageFails(m: Message, origin: nat, k: nat)
    requires Sendable(m) && k < |Serialized(m)| && k + |Serialized(m)| < WORD
    ensures var end := Checked(MessageSteps(m), k, k);
      end.Some? && Deserialized(origin, Serialized(m)[..k], k) == Failed(end.value)
  {
    hide Serialized, Deserialized, MessageSteps, Sendable;
    SerializedSteps(m, origin, Serialized(m)[..k], k);
  }

  method Serialize(m: Message) returns (buffer: Writer)
    requires Sendable(m)
    ensures fresh(buffer) && buffer.bytes == Serialized(m)
  {
    hide Le, ToBytes, Encoded, Encodable;
    buffer := new Writer();
    buffer.Put([m.kind]);
    buffer.Put(Le(m.uid, 8));
    buffer.Put(Le(m.port, 4));
    buffer.Put(Le(|m.actorName|, 4));
    buffer.Put(ToBytes(m.actorName));
    ghost var head := buffer.bytes;
    if m.content.None? {
      buffer.Put([0]);
    } else {
      buffer.Put([1]);
      buffer.Dump(m.content.value);
      assert (head + [1]) + Encoded(m.content.value) == head + ([1] + Encoded(m.content.value));
    }
    assert buffer.bytes == head + SerializedContent(m.content);
    Nested([m.kind], Le(m.uid, 8), Le(m.port, 4), Le(|m.actorName|, 4), ToBytes(m.actorName), SerializedContent(m.content));
  }

  lemma Nested(a: seq<byte>, b: seq<byte>, c: seq<byte>, d: seq<byte>, e: seq<byte>, f: seq<byte>)
    ensures [] + a + b + c + d + e + f == a + (b + (c + (d + (e + f))))
  {}

  method Deserialize(origin: nat, content: seq<byte>) returns (r: Outcome<Message>)
    ensures match Deserialized(origin, content, |content| % WORD)
      case Got(m, rest, l) => r == Done(m)
      case Failed(f) => r == Stopped(f)
  {
    hide Take, TakeU32, TakeString, Parse, FromLe;
    var buffer := new Reader(content);
    var kind := buffer.ReadBytes(1);
    if kind.Stopped? { return Stopped(kind.failure); }
    var uid := buffer.ReadBytes(8);
    if uid.Stopped? { return Stopped(uid.failure); }
    var port := buffer.ReadU32();
    if port.Stopped? { return Stopped(port.failure); }
    var name := buffer.ReadText();
    if name.Stopped? { return Stopped(name.failure); }
    var hasContent := buffer.ReadBytes(1);
    if hasContent.Stopped? { return Stopped(hasContent.failure); }
    var node: Option<Node> := None;
    if hasContent.value[0] != 0 {
      var v := buffer.Parse();
      if v.Stopped? { return Stopped(v.failure); }
      node := Some(v.value);
    }
    return Done(Message(kind.value[0], FromLe(uid.value), origin, port.value % 0x10000, name.value, node));
  }

  /** A message sent and received. */
  method SendAndReceive(m: Message, origin: nat) returns (r: Outcome<Message>)
    requires Sendable(m) && 2 * |Serialized(m)| < WORD
    ensures if m.content.None? || Limited(m.content.value) then r == Done(m.(ip := origin)) else r == Stopped(Rejected)
  {
    hide Serialized, Deserialized, Limited, Sendable;
    var buffer := Serialize(m);
    SerializedIsRead(m, origin);
    SmallMod(|buffer.bytes|, WORD);
    r := Deserialize(origin, buffer.bytes);
  }
}
