# irk line codec in Dafny

A model of the codec at the heart of `irk`, an IRC-style client library.
The library has three parts, and each is modelled in its own form.

- **Line grammar** (`src/lib.rs`). A `Message` has an optional source, a
  command and parameters.
  - `Display` renders it as `:source command p1 p2 :last`.
  - The `Lexer` reads such a line back. It reassigns its unread `input`
    step by step, and a parameter that starts with `:` takes the rest of
    the line, spaces included.
  - The grammar is a simplified subset of section 2.3.1 of RFC 2812: no
    tags, no CR-LF and no limit of 15 parameters.
- **Token encoder** (`src/proto/ser.rs`). A serde `Serializer` walks a
  value and appends text tokens to its `args` list.
  - A scalar gives one token and `None` gives none.
  - A sequence gives one comma-joined token.
  - An enum variant gives its name, then its payload's tokens.
  - `to_message` makes the first token the command.
- **Token decoder** (`src/proto/de.rs`). A `Deserializer` is a cursor.
  - It holds a head token, a stack of the parameters in reverse order,
    and a `fields` counter for the fields that enclosing tuples still owe.
  - An `Option` is present exactly when at least `fields` tokens are left.
  - A sequence is read from one token by putting each comma-separated
    piece back as the head.

Serde's open visitor traits are replaced by a closed description of what
is walked. A `Shape` says what the decoder is asked for and a `Value` is
what the encoder is given (`values.dfy`). The stateful parts are classes
whose methods are proved equal to pure specification functions:

| class | state | specification functions |
|---|---|---|
| `Lexer` | its unread input | `SplitPart`, `ParseParameters`, `ParseLine` |
| `Serializer` | its token list | `Encode`, `EncodeAll` |
| `Deserializer` | its head, stack and field counter | `Take`, `DecodeValue`, `DecodeFields`, `DecodeItems` |

The specification functions carry the properties:
- render-then-parse gives a well-formed message back;
- the encoder's token count matches an independent count (`Width`);
- every flat *enum* value (a command) comes back from the message it
  encodes to, and through a rendered line when its non-last tokens are
  plain;
- the decoder's documented quirks are exhibited for the values that are
  not flat.

The files, in dependency order:
- `errors.dfy`: the error kinds, `Option` and `Result`.
- `text.dfy`: the text and list operations used: `str::split_once`, `str::trim_start_matches`, `[String]::join` and `Vec::reverse`.
- `scalars.dfy`: the text forms of unsigned integers, booleans and characters.
- `grammar.dfy`: `src/lib.rs`.
- `values.dfy`: shapes and values.
- `ser.dfy`: `src/proto/ser.rs`.
- `de.dfy`: `src/proto/de.rs`.
- `roundtrip.dfy`: how encoder, decoder and grammar fit together.
- `commands.dfy`: the `Command` and `Cap` enums of `src/proto/mod.rs` as shapes.
- `quirks.dfy`: values that do not round-trip.

A value is *flat* when:
- each field is one token, or an optional one token;
- a list field has no comma in any element and does not end in an empty element;
- no present optional field comes before an absent one.

## Model

| member | source | states |
|---|---|---|
| Text.SplitOnce | src/lib.rs:45-48 | `split_once`: the text before the first occurrence of the separator, and everything after it (empty when there is none) |
| Text.TrimStart | src/lib.rs:49 | `trim_start_matches(' ')` leaves no leading space and never grows the text |
| Text.TrimStartSuffix | src/lib.rs:49 | what is left after trimming is a suffix of the input |
| Text.Join | src/proto/ser.rs:170-173 | `join(",")`: the first piece leads the result and, when more follow, a comma comes right after it; its partner `Text.SplitOnceJoin` splits it back |
| Text.Reverse | src/proto/de.rs:11-17 | `reverse()` keeps the length; `Text.ReverseAt` puts element `k` at position `len - 1 - k`, and `Text.ReverseReverse` undoes it |
| Text.ReverseAt | src/proto/de.rs:11-17 | after `reverse()`, element `k` is the one at position `len - 1 - k` of the input |
| Text.ReverseReverse | src/proto/de.rs:11-17 | reversing the parameters twice gives them back, so the stack yields them in their original order |
| Text.SplitOnceJoin | src/proto/de.rs:204 | splitting a comma-join of comma-free pieces at its first comma gives the first piece and the join of the rest |
| Scalars.FormatNat | src/proto/ser.rs:94-98 | `to_string` of an unsigned integer is non-empty and all decimal digits |
| Scalars.ParseUInt | src/proto/de.rs:34-40 | `str::parse` for a `bits`-bit unsigned integer succeeds exactly when the text without one optional leading `+` is non-empty, all decimal digits (leading zeros allowed) and of value below `2^bits`, and then gives that value; every failure is a Deserialize error |
| Scalars.ParseUIntExamples | src/proto/de.rs:34-40 | `"007"` gives 7 and `"+5"` gives 5; `"256"` overflows 8 bits; `"-1"`, `"+"` and `"1a"` are rejected |
| Scalars.ParseFormatUInt | src/proto/de.rs:34-40 | an integer that fits the width parses back from its decimal text |
| Scalars.FormatBool | src/proto/ser.rs:94-98 | `bool::to_string` parses back to the same boolean |
| Scalars.ParseBool | src/proto/de.rs:34-40 | succeeds exactly on `true` and `false`; otherwise a Deserialize error |
| Scalars.FormatChar | src/proto/ser.rs:94-98 | `char::to_string` parses back to the same character |
| Scalars.ParseChar | src/proto/de.rs:34-40 | succeeds exactly on a one-character text, giving that character; otherwise a Deserialize error |
| Grammar.SplitPart | src/lib.rs:44-51 | `read_part`: the part has no space, what is left starts with no space, and a non-empty input always shrinks |
| Grammar.ParseLine | src/lib.rs:53-78 | parsing is total. There is a source exactly when the line starts with `:`, and it is the text between that colon and the first space. Neither source nor command holds a space |
| Grammar.Lexer.constructor | src/lib.rs:36-38 | `Lexer::new` holds the whole line as unread input |
| Grammar.Lexer.Current | src/lib.rs:40-42 | the first unread character, or none at the end of input |
| Grammar.Lexer.ReadPart | src/lib.rs:44-51 | the part read and the new unread input are those of `SplitPart` |
| Grammar.Lexer.Parse | src/lib.rs:53-78 | returns `ParseLine` of the whole input. What is left unread is empty, or is the trailing parameter with its colon |
| Grammar.Lexer.ReadParameters | src/lib.rs:64-71 | the parameter loop returns `ParseParameters` of its input; stopping at a colon leaves that trailing parameter as its last |
| Grammar.FromLine | src/lib.rs:81-85 | `From<&str>` gives a message for every line, namely `ParseLine` of it |
| Grammar.PartIsPlain | src/lib.rs:44-51 | a part read from input starting with neither space nor colon is a plain token |
| Grammar.ParametersAreTokens | src/lib.rs:64-71 | every parameter but the last is plain; a last parameter that is not plain is all the input after a colon |
| Grammar.SpacesSkipped | src/lib.rs:44-51 | any run of one or more spaces after a parameter is skipped and yields no empty parameter |
| Grammar.RenderEndsWithTrailing | src/lib.rs:22-25 | rendered parameters end with `" :"` and the last parameter |
| Grammar.ParseRenderParameters | src/lib.rs:64-71 | rendered parameters whose non-last members are plain are lexed back unchanged |
| Grammar.CommandThenParameters | src/lib.rs:62-71 | after a plain command, the rendered parameters are read back unchanged |
| Grammar.ParseLineWithSource | src/lib.rs:54-60 | a line `:src rest` has source `src`, then the command and parameters of `rest` |
| Grammar.ParseLineWithoutSource | src/lib.rs:54-60 | a line not starting with `:` has no source |
| Grammar.RenderParameters | src/lib.rs:22-25 | no parameters render to nothing, otherwise the text starts with a space; `Grammar.ParseRenderParameters` lexes it back |
| Grammar.Render | src/lib.rs:14-29 | a source makes the line start with `:`, otherwise the line starts with the command; `Grammar.ParseRender` parses it back |
| Grammar.ParseParameters | src/lib.rs:64-71 | the parameter loop yields no parameters exactly on empty input, and never more parameters than characters; `Grammar.ParametersAreTokens` and `Grammar.ParseRenderParameters` state what they are |
| Grammar.ParseRender | src/lib.rs:14-29 | `parse(render(m)) == m` when the source has no space, the command is plain and every non-last parameter is plain |
| Grammar.ParseRfcList | src/lib.rs:102-106 | `:irc.example.com CAP * LIST :` parses to source `irc.example.com`, command `CAP`, parameters `*`, `LIST`, `""` |
| Grammar.ParseRfcLs | src/lib.rs:107-111 | `CAP * LS :multi-prefix sasl` parses to no source and parameters `*`, `LS`, `multi-prefix sasl` |
| Grammar.ParseRfcReq | src/lib.rs:112-116 | `CAP REQ :sasl message-tags foo` parses to parameters `REQ`, `sasl message-tags foo` |
| Grammar.RenderRfcList | src/lib.rs:14-29 | the first test message renders to its test line |
| Grammar.RenderRfcLs | src/lib.rs:14-29 | the second test message renders to its test line |
| Grammar.RenderRfcReq | src/lib.rs:14-29 | the third test message renders to its test line |
| Values.Lookup | src/proto/de.rs:148-153 | the tag names the first variant of that name, or no variant has that name |
| Values.LookupIndex | src/proto/de.rs:148-153 | with distinct variant names, each variant's own name finds that variant |
| Ser.Encode | src/proto/ser.rs:86-119 | encoding fails exactly when a map occurs in the value, and then with UnsupportedType |
| Ser.EncodeAll | src/proto/ser.rs:176-202 | the fields of a tuple or struct fail exactly when one of them holds a map |
| Ser.EncodeAllAppend | src/proto/ser.rs:162-168 | encoding two lists of values gives the concatenation of their tokens |
| Ser.EncodeWidth | src/proto/ser.rs:86-111 | the encoder gives `Width(v)` tokens: one per scalar or sequence, none for `None` or unit, the inner count for `Some`, one plus the payload's for a variant |
| Ser.EncodeAllWidth | src/proto/ser.rs:176-202 | a row of fields gives the sum of the fields' token counts |
| Ser.ToMessage | src/proto/ser.rs:25-32 | `Eof` exactly when there are no tokens; otherwise no source, the first token as command and the rest as parameters |
| Ser.Serializer.constructor | src/proto/ser.rs:5-8 | `Serializer::default` holds no tokens |
| Ser.Serializer.New | src/proto/ser.rs:14-18 | a fresh serializer holding exactly the value's tokens, or the encoding error |
| Ser.Serializer.Argument | src/proto/ser.rs:20-23 | appends the value's tokens after those already there; earlier tokens never change, even on error |
| Ser.Serializer.Serialize | src/proto/ser.rs:86-155 | appends exactly `Encode(v)`; on error the earlier tokens are kept |
| Ser.Serializer.SerializeSeq | src/proto/ser.rs:158-174 | encodes each element into a fresh serializer and appends one token, the comma-join of all their tokens |
| Ser.Serializer.SerializeFields | src/proto/ser.rs:176-202 | appends each field's tokens in declaration order |
| De.Initial | src/proto/de.rs:11-17 | `from_message`: the cursor yields the command, then the parameters in their original order; no field is outstanding |
| De.Available | src/proto/de.rs:29-31 | `available()` is the number of tokens still to be read |
| De.Take | src/proto/de.rs:21-27 | `read_part` gives `Eof` exactly when nothing is left, and then changes nothing. Otherwise it gives the next pending token and lowers `available()` by one |
| De.TakePending | src/proto/de.rs:21-27 | the token read is the first pending one, and the rest stay pending in order |
| De.ParseScalar | src/proto/de.rs:34-40 | text is taken verbatim; a failing parse is a Deserialize error |
| De.DecodeValue | src/proto/de.rs:58-142 | decoding only ever consumes parameters, and a successful decode leaves `fields` as it was |
| De.DecodeScalar | src/proto/de.rs:84-86 | a scalar reads exactly one token: Eof when none is left, a Deserialize error for a malformed one |
| De.DecodeField | src/proto/de.rs:179-186 | one field; on success one field fewer is outstanding |
| De.DecodeFields | src/proto/de.rs:76-82 | a successful row has one value per field, and the arity added to `fields` is all taken off again |
| De.DecodeItem | src/proto/de.rs:194-210 | one sequence element; an element read always leaves less input behind |
| De.DecodeItems | src/proto/de.rs:126-128 | a sequence only consumes input and keeps `fields` on success |
| De.ItemsLoopStep | src/proto/de.rs:194-210 | one turn of the element loop: an error ends the sequence with it, an empty part ends it with the items so far, an element is appended |
| De.OptionRule | src/proto/de.rs:100-106 | an `Option` is `None` exactly when fewer than `fields` tokens are left, and then nothing is read; otherwise a success is `Some` |
| De.Unsupported | src/proto/de.rs:67-69 | `any`, `map` and `ignored_any` fail with UnsupportedType whatever the input, reading nothing |
| De.EnumTag | src/proto/de.rs:144-161 | an enum reads one tag. No token is Eof, an unknown tag is an error, and a unit variant reads nothing more |
| De.EnumPayload | src/proto/de.rs:163-168 | a known tag's payload is decoded from the tokens after it |
| De.ScalarItem | src/proto/de.rs:194-210 | an element is the piece before the first comma; the rest of the token becomes the head |
| De.JoinedStep | src/proto/de.rs:204-208 | the first element of a comma-joined token, then the join of the remaining pieces as head |
| De.DecodeJoined | src/proto/de.rs:194-210 | the join of comma-free pieces, the last not empty, decodes to their values in one token; the empty token is the empty list |
| De.DecodeJoinedSeq | src/proto/de.rs:126-128 | the same seen as `deserialize_seq` |
| De.Deserializer.FromMessage | src/proto/de.rs:11-17 | the state is the cursor `Initial(m)` |
| De.Deserializer.Available | src/proto/de.rs:29-31 | the number of pending tokens of the state |
| De.Deserializer.ReadPart | src/proto/de.rs:21-27 | result and new state are those of `Take` |
| De.Deserializer.Deserialize | src/proto/de.rs:58-142 | result and new state are `DecodeValue` of the old state |
| De.Deserializer.DeserializeScalar | src/proto/de.rs:84-86 | result and new state are `DecodeScalar` |
| De.Deserializer.DeserializeOption | src/proto/de.rs:100-106 | result and new state are those of an `Option` shape |
| De.Deserializer.DeserializeTuple | src/proto/de.rs:76-82 | adding the arity and reading that many fields gives `DecodeValue` of the tuple |
| De.Deserializer.NextField | src/proto/de.rs:179-186 | result and new state are `DecodeField` |
| De.Deserializer.DeserializeSeq | src/proto/de.rs:126-128 | result and new state are `DecodeValue` of the sequence |
| De.Deserializer.ReadItems | src/proto/de.rs:191-210 | reading elements until the end is `DecodeItems` |
| De.Deserializer.NextItem | src/proto/de.rs:194-210 | result and new state are `DecodeItem`, the head put back even on error |
| De.Deserializer.DeserializeEnum | src/proto/de.rs:130-168 | result and new state are `DecodeValue` of the enum |
| RoundTrip.AtomToken | src/proto/ser.rs:94-98 | an atom encodes to one token that parses back to it |
| RoundTrip.AtomTokens | src/proto/ser.rs:162-168 | a list of atoms encodes to one token per atom, in order |
| RoundTrip.StrsListOf | src/proto/ser.rs:170-173 | texts without commas, the last not empty, form a list whose one token splits back into them |
| RoundTrip.Token | src/proto/ser.rs:158-174 | a single-token value encodes to exactly that token |
| RoundTrip.SingleDecodes | src/proto/de.rs:194-210 | a single-token value decodes from its token, reading only it |
| RoundTrip.FieldToken | src/proto/ser.rs:100-106 | a field gives no token when it is an absent optional, else one |
| RoundTrip.FieldTokens | src/proto/ser.rs:176-202 | a row gives one token per field that is not an absent optional |
| RoundTrip.SingleField | src/proto/de.rs:179-186 | a single-token field reads its token whatever `fields` says |
| RoundTrip.AbsentField | src/proto/de.rs:100-106 | an optional field with fewer tokens left than fields owed is `None` and reads nothing |
| RoundTrip.PresentField | src/proto/de.rs:100-106 | an optional field with enough tokens left is `Some` of its token |
| RoundTrip.FirstField | src/proto/de.rs:179-186 | the first field of a row decodes to its value, leaving the rest of the row's tokens |
| RoundTrip.FieldsDecode | src/proto/de.rs:76-82 | a row whose optionals are absent-first decodes from its tokens, reading all of them |
| RoundTrip.Tokens | src/proto/ser.rs:86-155 | a flat value encodes to exactly these tokens |
| RoundTrip.VariantTokens | src/proto/ser.rs:121-155 | a variant's tokens are its name, then its payload's |
| RoundTrip.RowTokens | src/proto/ser.rs:176-202 | an absent-first row of fields is flat, with the fields' tokens |
| RoundTrip.FlatDecodes | src/proto/de.rs:130-174 | a flat value decodes from its tokens, reading all of them |
| RoundTrip.MessageRoundTrip | src/proto/ser.rs:25-32 | encode, make a message and decode it: a flat enum value comes back and every token is read |
| RoundTrip.LineSafeTwo | src/lib.rs:22-25 | a plain command and plain first parameter followed by at most one more parameter survive a line |
| RoundTrip.LineRoundTrip | src/lib.rs:53-78 | encode, render, parse and decode gives a flat value back when its non-last tokens are plain |
| Commands.CommandNamesDistinct | src/proto/mod.rs:9-36 | the tags of `Command` are pairwise different |
| Commands.CommandTokens | src/proto/ser.rs:146-155 | a command with a flat payload is its tag followed by the payload's tokens |
| Commands.CommandRoundTrip | src/proto/de.rs:156-174 | every flat command decodes back from its message |
| Commands.OptStrToken | src/proto/ser.rs:100-106 | an optional text gives its text or nothing |
| Commands.PongPayload | src/proto/mod.rs:16-19 | the `Pong` fields are a row: optional server, then token |
| Commands.PongTokens | src/proto/mod.rs:16-19 | `PONG` encodes to `PONG token` or `PONG server token` |
| Commands.PongRoundTrip | src/proto/de.rs:100-106 | a `Pong` comes back with or without its server, told apart by the token count alone |
| Commands.TopicFields | src/proto/mod.rs:32-35 | the `Topic` fields give the channel, then the topic only if present |
| Commands.TopicPayload | src/proto/mod.rs:32-35 | the `Topic` payload is flat with those tokens |
| Commands.TopicTokens | src/proto/mod.rs:32-35 | `TOPIC` encodes to `TOPIC channel` or `TOPIC channel topic` |
| Commands.TopicLineSafe | src/lib.rs:22-25 | with a plain channel, those tokens survive a rendered line |
| Commands.TopicRoundTrip | src/proto/de.rs:100-106 | a `Topic` comes back from its message with or without its topic |
| Commands.TopicLineRoundTrip | src/lib.rs:53-78 | a `Topic` with a plain channel comes back through a rendered and parsed line, its topic may hold spaces |
| Commands.KickPayload | src/proto/mod.rs:27-31 | the `Kick` fields, with comma-free users the last not empty, form a flat row |
| Commands.KickRoundTrip | src/proto/mod.rs:27-31 | such a `Kick` comes back from its message |
| Commands.CapReqFlat | src/proto/mod.rs:38-42 | with upper-case tags, `CAP REQ caps` are the tokens of a capability request |
| Commands.CapReqRoundTrip | src/proto/mod.rs:38-42 | with upper-case tags, a capability request encodes to `CAP REQ caps` and decodes back |
| Commands.CapReqLine | src/lib.rs:112-116 | with upper-case tags, the test line `CAP REQ :sasl message-tags foo` decodes to the request it carries |
| Commands.CapReqAsWritten | src/proto/mod.rs:38-42 | with the tags as written, a `CAP REQ` message fails with an unknown-variant error whatever it requests |
| Commands.CapReqLineAsWritten | src/proto/mod.rs:38-42 | with the tags as written, the test line `CAP REQ :...` does not decode |
| Quirks.OptionalsSameTokens | src/proto/ser.rs:100-106 | `(x, Some(y), None)` and `(x, None, Some(y))` both encode to `[x, y]` |
| Quirks.OptionalsSwap | src/proto/de.rs:100-106 | `[x, y]` decodes to `(x, None, Some(y))`, so `(x, Some(y), None)` does not come back |
| Quirks.DecodeTrailingEmpty | src/proto/de.rs:199-202 | the join of pieces followed by an empty piece decodes to the pieces before it |
| Quirks.EmptyLastDropped | src/proto/ser.rs:170-173 | a list of texts ending in `""` encodes to a token ending in a comma, and decodes without that last element |
| Quirks.PairTokens | src/proto/ser.rs:162-173 | a list of one pair `(a, b)` encodes to the one token `a,b` |
| Quirks.PairStealsParameter | src/proto/de.rs:206-208 | decoding that token as a list of pairs takes `a` from the piece and the second field from the next parameter |
| Quirks.PairFromHead | src/proto/de.rs:206-208 | a pair decoded with `a` as head reads its second field from the stack |
| Quirks.PairsAtEnd | src/proto/de.rs:206-208 | as the last parameter, that token fails to decode with Eof |

## Left out

- Floating point (`f32`, `f64`) and signed integers are not modelled. The source's integers are `u8` to `u64`, which are `UInt(bits)` with `bits` 8, 16, 32 or 64; the model's lemmas hold for any `bits`. `u128` is not modelled: the codec does not implement it, so serde's default method fails for it.
- Byte strings are not modelled: the `from_utf8(...).unwrap()` panic of `serialize_bytes` and the `InvalidUtf8` error kind. Text is a sequence of characters.
- Borrowing and lifetimes are not modelled: tokens are owned strings.
- The `Display` texts of errors are not modelled. Parse failures carry a short fixed detail. The unknown-tag error of serde's derived enum visitors is modelled as `Deserialize("unknown variant")`.
- Serde's derive code is not shown in the repository, so it is modelled as what its visitors do:
  - a tuple or struct reads exactly its arity of elements;
  - a `Vec` reads elements until the access reports the end;
  - an enum matches its tag against the variant names (`Lookup`).
  A hand-written visitor that asks for a different number of elements is not modelled.
- De.DecodeField: requires `fields >= 1`. The source's `self.fields -= 1` on a `usize` would underflow at zero: it panics when overflow checks are on (debug builds) and wraps otherwise. Only a tuple visitor calls it, after `deserialize_tuple` has raised the counter, so the panic is not reachable in the model.
- `deserialize_identifier` is modelled only as the reading of an enum tag. Struct field names are not modelled: `deserialize_struct` forwards only their number.
- Newtype structs are their inner shape, and unit structs are `Unit`. Encoder and decoder both forward them unchanged.
- The round trip is proved for flat enum values only: a value that encodes to no tokens (a unit, or a tuple of absent optionals) has no message, and a line round trip also needs every non-last token plain. `quirks.dfy` shows three ways other values fail to come back:
  - two optional fields;
  - a trailing empty list element;
  - list elements of several tokens.
- The code's `Cap` enum has no `rename_all`, so its tags are `Req` and `End`; IRC capability negotiation sends `REQ` and `END`. The command lemmas (`CommandRoundTrip`, `PongRoundTrip`, `TopicRoundTrip`, `TopicLineRoundTrip`, `KickRoundTrip`, `CapReqRoundTrip`, `CapReqLine`) are stated over `CommandShape`, which uses the corrected upper-case tags. `CapReqAsWritten` and `CapReqLineAsWritten` use `CommandShapeAsWritten`, with the code's tags. The difference is reported under Findings.

## Findings

| source | as written | input that shows it | evidently intended | confidence | as-written member | corrected member |
|---|---|---|---|---|---|---|
| src/proto/mod.rs:38-42 | `Cap` derives `Deserialize` without `#[serde(rename_all = "UPPERCASE")]`, so its tags are `Req` and `End` | the line `CAP REQ :sasl message-tags foo` (the `parse_rfc` test line) fails to decode with an unknown-variant error | `Cap` renamed to upper case like `Command`, so that `CAP REQ caps` decodes to `Cap::Req { caps }` as IRC capability negotiation sends it | high; not executed | Commands.CapReqAsWritten | Commands.CapReqRoundTrip |
