/** The commands of src/proto/mod.rs as shapes, and what the codec does
    with them. `Command` renames its variants to upper case, so its tags
    are `CAP`, `PONG` and so on; each struct variant is a row of fields.
    `Cap` has no renaming, so its tags are `Req` and `End` as written;
    IRC capability negotiation sends `CAP REQ`, which that enum refuses.
    `CapVariantsAsWritten` keeps the tags of the source and
    `CapVariants` the upper-case ones. */
module Commands {
  import opened Errors
  import opened Values
  import opened Grammar
  import opened Ser
  import opened De
  import opened RoundTrip

  const CapVariantsAsWritten: seq<VariantShape> :=
    [VariantShape("Req", Tuple([Str])), VariantShape("End", Unit)]

  const CapVariants: seq<VariantShape> :=
    [VariantShape("REQ", Tuple([Str])), VariantShape("END", Unit)]

  /** The variants of `Command`, with the given `Cap` variants. */
  function CommandVariants(cap: seq<VariantShape>): (vs: seq<VariantShape>)
    ensures |vs| == 7
  {
    [ VariantShape("CAP", Enum(cap)),
      VariantShape("AUTHENTICATE", Tuple([Str])),
      VariantShape("PONG", Tuple([Opt(Str), Str])),
      VariantShape("NICK", Tuple([Str])),
      VariantShape("USER", Tuple([Str, Str])),
      VariantShape("KICK", Tuple([Str, Seq(Str), Opt(Str)])),
      VariantShape("TOPIC", Tuple([Str, Opt(Str)])) ]
  }

  /** The tags of `Command` are all different. */
  lemma CommandNamesDistinct(cap: seq<VariantShape>)
    ensures DistinctNames(CommandVariants(cap))
  {
  }

  const CommandShapeAsWritten: Shape := Enum(CommandVariants(CapVariantsAsWritten))

  const CommandShape: Shape := Enum(CommandVariants(CapVariants))

  function OptStr(s: Option<string>): Value {
    if s.Some? then VSome(VStr(s.value)) else VNone
  }

  function Pong(server: Option<string>, token: string): Value {
    VVariant("PONG", VTuple([OptStr(server), VStr(token)]))
  }

  function Topic(channel: string, topic: Option<string>): Value {
    VVariant("TOPIC", VTuple([VStr(channel), OptStr(topic)]))
  }

  function Kick(channel: string, users: seq<string>, reason: Option<string>): Value {
    VVariant("KICK", VTuple([VStr(channel), VSeq(Strs(users)), OptStr(reason)]))
  }

  function CapReq(caps: string): Value {
    VVariant("CAP", VVariant("REQ", VTuple([VStr(caps)])))
  }

  /** The variants of `Command` by position. */
  lemma CommandVariantAt(i: nat)
    requires i < 7
    ensures i == 0 ==> CommandVariants(CapVariants)[i] == VariantShape("CAP", Enum(CapVariants))
    ensures i == 2 ==> CommandVariants(CapVariants)[i] == VariantShape("PONG", Tuple([Opt(Str), Str]))
    ensures i == 5 ==> CommandVariants(CapVariants)[i] == VariantShape("KICK", Tuple([Str, Seq(Str), Opt(Str)]))
    ensures i == 6 ==> CommandVariants(CapVariants)[i] == VariantShape("TOPIC", Tuple([Str, Opt(Str)]))
  {
  }

  /** A variant of `Command` with a flat payload is a flat command, whose
      tokens are the variant's name and then the payload's. */
  lemma CommandTokens(i: nat, name: string, shape: Shape, payload: Value)
    requires i < 7 && CommandVariants(CapVariants)[i] == VariantShape(name, shape)
    requires Flat(shape, payload)
    ensures Flat(CommandShape, VVariant(name, payload))
    ensures Tokens(CommandShape, VVariant(name, payload)) == [name] + Tokens(shape, payload)
  {
    CommandNamesDistinct(CapVariants);
    VariantTokens(CommandVariants(CapVariants), i, payload);
  }

  lemma ConsTwo(a: string, b: string, rest: seq<string>)
    ensures [a] + ([b] + rest) == [a, b] + rest
  {
  }

  /** Decoding the message of a flat command gives the command back. */
  lemma CommandRoundTrip(v: Value)
    requires Flat(CommandShape, v)
    ensures Encode(v).Ok? && ToMessage(Encode(v).value).Ok?
    ensures DecodeValue(CommandShape, Initial(ToMessage(Encode(v).value).value)).0 == Ok(v)
  {
    MessageRoundTrip(CommandShape, v);
  }

  /** The tokens of an optional text field: none or one. */
  lemma OptStrToken(s: Option<string>)
    ensures FieldOf(Opt(Str), OptStr(s))
    ensures FieldToken(Opt(Str), OptStr(s)) == if s.Some? then [s.value] else []
  {
    if s.Some? {
      assert Token(Str, VStr(s.value)) == s.value;
    }
  }

  /** The payload of `PONG`: a row of its optional server and its token. */
  lemma PongPayload(server: Option<string>, token: string)
    ensures Flat(Tuple([Opt(Str), Str]), VTuple([OptStr(server), VStr(token)]))
    ensures Tokens(Tuple([Opt(Str), Str]), VTuple([OptStr(server), VStr(token)])) ==
      (if server.Some? then [server.value] else []) + [token]
  {
    var fields := [OptStr(server), VStr(token)];
    OptStrToken(server);
    assert FieldsOf([Opt(Str), Str], fields);
    RowTokens([Opt(Str), Str], fields);
    assert FieldTokens([Str], [VStr(token)]) == [token];
  }

  /** `PONG` gives its server only when there is one; the decoder tells
      the two apart by the number of tokens alone. */
  lemma PongTokens(server: Option<string>, token: string)
    ensures Flat(CommandShape, Pong(server, token))
    ensures server.None? ==> Encode(Pong(server, token)) == Ok(["PONG", token])
    ensures server.Some? ==> Encode(Pong(server, token)) == Ok(["PONG", server.value, token])
  {
    var opt := if server.Some? then [server.value] else [];
    PongPayload(server, token);
    CommandVariantAt(2);
    CommandTokens(2, "PONG", Tuple([Opt(Str), Str]), VTuple([OptStr(server), VStr(token)]));
    assert Encode(Pong(server, token)) == Ok(["PONG"] + (opt + [token]));
    if server.Some? {
      assert ["PONG"] + ([server.value] + [token]) == ["PONG", server.value, token];
    } else {
      assert ["PONG"] + ([] + [token]) == ["PONG", token];
    }
  }

  /** Every `PONG` comes back from its message, with or without a server. */
  lemma PongRoundTrip(server: Option<string>, token: string)
    ensures Encode(Pong(server, token)).Ok?
    ensures ToMessage(Encode(Pong(server, token)).value).Ok?
    ensures DecodeValue(CommandShape, Initial(ToMessage(Encode(Pong(server, token)).value).value)).0
         == Ok(Pong(server, token))
  {
    PongTokens(server, token);
    CommandRoundTrip(Pong(server, token));
  }

  lemma TopicFields(channel: string, topic: Option<string>)
    ensures FieldsOf([Str, Opt(Str)], [VStr(channel), OptStr(topic)])
    ensures AbsentFirst([VStr(channel), OptStr(topic)])
    ensures FieldTokens([Str, Opt(Str)], [VStr(channel), OptStr(topic)]) ==
      [channel] + (if topic.Some? then [topic.value] else [])
  {
    OptStrToken(topic);
    assert FieldTokens([Opt(Str)], [OptStr(topic)]) == FieldToken(Opt(Str), OptStr(topic));
  }

  /** The payload of `TOPIC`: a row of its channel and optional topic. */
  lemma TopicPayload(channel: string, topic: Option<string>)
    ensures Flat(Tuple([Str, Opt(Str)]), VTuple([VStr(channel), OptStr(topic)]))
    ensures Tokens(Tuple([Str, Opt(Str)]), VTuple([VStr(channel), OptStr(topic)])) ==
      [channel] + (if topic.Some? then [topic.value] else [])
  {
    TopicFields(channel, topic);
    RowTokens([Str, Opt(Str)], [VStr(channel), OptStr(topic)]);
  }

  /** `TOPIC` gives its channel, then its topic only when there is one. */
  lemma TopicTokens(channel: string, topic: Option<string>)
    ensures Flat(CommandShape, Topic(channel, topic))
    ensures Tokens(CommandShape, Topic(channel, topic)) ==
      ["TOPIC", channel] + (if topic.Some? then [topic.value] else [])
  {
    var rest := if topic.Some? then [topic.value] else [];
    TopicPayload(channel, topic);
    CommandVariantAt(6);
    CommandTokens(6, "TOPIC", Tuple([Str, Opt(Str)]), VTuple([VStr(channel), OptStr(topic)]));
    ConsTwo("TOPIC", channel, rest);
  }

  /** The tokens of a `TOPIC` with a plain channel pass through a line. */
  lemma TopicLineSafe(channel: string, topic: Option<string>)
    requires Plain(channel)
    ensures Flat(CommandShape, Topic(channel, topic))
    ensures LineSafe(Tokens(CommandShape, Topic(channel, topic)))
  {
    TopicTokens(channel, topic);
    PlainTopic();
    LineSafeTwo("TOPIC", channel, if topic.Some? then [topic.value] else []);
  }

  lemma PlainTopic()
    ensures Plain("TOPIC")
  {
    assert "TOPIC"[0] == 'T';
  }

  /** Every `TOPIC` comes back from its message, with or without a topic. */
  lemma TopicRoundTrip(channel: string, topic: Option<string>)
    ensures Encode(Topic(channel, topic)).Ok?
    ensures ToMessage(Encode(Topic(channel, topic)).value).Ok?
    ensures DecodeValue(CommandShape, Initial(ToMessage(Encode(Topic(channel, topic)).value).value)).0
         == Ok(Topic(channel, topic))
  {
    TopicTokens(channel, topic);
    CommandRoundTrip(Topic(channel, topic));
  }

  /** A `TOPIC` survives the whole path through a line when its channel is
      a plain word; the topic may hold spaces, as the trailing parameter. */
  lemma TopicLineRoundTrip(channel: string, topic: Option<string>)
    requires Plain(channel)
    ensures Encode(Topic(channel, topic)).Ok?
    ensures ToMessage(Encode(Topic(channel, topic)).value).Ok?
    ensures DecodeValue(CommandShape,
              Initial(ParseLine(Render(ToMessage(Encode(Topic(channel, topic)).value).value)))).0
         == Ok(Topic(channel, topic))
  {
    TopicLineSafe(channel, topic);
    LineRoundTrip(CommandShape, Topic(channel, topic));
  }

  /** The payload of `KICK`: a row of its channel, its users as one
      comma-joined token, and its optional reason. */
  lemma KickPayload(channel: string, users: seq<string>, reason: Option<string>)
    requires forall i :: 0 <= i < |users| ==> ',' !in users[i]
    requires users == [] || users[|users| - 1] != ""
    ensures Flat(Tuple([Str, Seq(Str), Opt(Str)]), VTuple([VStr(channel), VSeq(Strs(users)), OptStr(reason)]))
  {
    var list := VSeq(Strs(users));
    StrsListOf(users);
    assert AtomOf(Str, VStr(channel));
    OptStrToken(reason);
    RowOfThree(Str, Seq(Str), Opt(Str), VStr(channel), list, OptStr(reason));
    RowTokens([Str, Seq(Str), Opt(Str)], [VStr(channel), list, OptStr(reason)]);
  }

  /** A `KICK` comes back when no user name holds a comma and the last is
      not empty. */
  lemma KickRoundTrip(channel: string, users: seq<string>, reason: Option<string>)
    requires forall i :: 0 <= i < |users| ==> ',' !in users[i]
    requires users == [] || users[|users| - 1] != ""
    ensures Encode(Kick(channel, users, reason)).Ok?
    ensures ToMessage(Encode(Kick(channel, users, reason)).value).Ok?
    ensures DecodeValue(CommandShape, Initial(ToMessage(Encode(Kick(channel, users, reason)).value).value)).0
         == Ok(Kick(channel, users, reason))
  {
    KickPayload(channel, users, reason);
    CommandVariantAt(5);
    CommandTokens(5, "KICK", Tuple([Str, Seq(Str), Opt(Str)]),
      VTuple([VStr(channel), VSeq(Strs(users)), OptStr(reason)]));
    CommandRoundTrip(Kick(channel, users, reason));
  }

  lemma CapReqFlat(caps: string)
    ensures Flat(CommandShape, CapReq(caps))
    ensures Tokens(CommandShape, CapReq(caps)) == ["CAP", "REQ", caps]
  {
    var payload := VVariant("REQ", VTuple([VStr(caps)]));
    assert FieldsOf([Str], [VStr(caps)]);
    RowTokens([Str], [VStr(caps)]);
    assert FieldTokens([Str], [VStr(caps)]) == [caps];
    VariantTokens(CapVariants, 0, VTuple([VStr(caps)]));
    CommandVariantAt(0);
    CommandTokens(0, "CAP", Enum(CapVariants), payload);
  }

  /** A capability request comes back from its message. */
  lemma CapReqRoundTrip(caps: string)
    ensures Encode(CapReq(caps)) == Ok(["CAP", "REQ", caps])
    ensures DecodeValue(CommandShape, Initial(Message(None, "CAP", ["REQ", caps]))).0 == Ok(CapReq(caps))
  {
    CapReqFlat(caps);
    CommandRoundTrip(CapReq(caps));
  }

  /** With upper-case `Cap` tags, the line `CAP REQ :sasl message-tags foo`
      decodes to the capability request it carries. */
  lemma CapReqLine()
    ensures DecodeValue(CommandShape, Initial(ParseLine("CAP REQ :sasl message-tags foo"))).0
         == Ok(CapReq("sasl message-tags foo"))
  {
    ParseRfcReq();
    CapReqRoundTrip("sasl message-tags foo");
  }

  /** As written, a `CAP REQ` message names no variant of `Cap`, so
      decoding it fails whatever it requests. */
  lemma CapReqAsWritten(caps: string)
    ensures DecodeValue(CommandShapeAsWritten, Initial(Message(None, "CAP", ["REQ", caps]))).0
         == Err(Error.Deserialize("unknown variant"))
  {
    var c := Initial(Message(None, "CAP", ["REQ", caps]));
    TakePending(c);
    var c1 := Take(c).1;
    TakePending(c1);
    CommandNamesDistinct(CapVariantsAsWritten);
    LookupIndex(CommandVariants(CapVariantsAsWritten), 0);
    EnumPayload(CommandVariants(CapVariantsAsWritten), c, 0);
    EnumTag(CapVariantsAsWritten, c1);
  }

  /** As written, the line `CAP REQ :sasl message-tags foo` does not decode. */
  lemma CapReqLineAsWritten()
    ensures DecodeValue(CommandShapeAsWritten, Initial(ParseLine("CAP REQ :sasl message-tags foo"))).0
         == Err(Error.Deserialize("unknown variant"))
  {
    ParseRfcReq();
    CapReqAsWritten("sasl message-tags foo");
  }
}
