/** The line grammar of src/lib.rs: a message is an optional `:source`,
    a command and space-separated parameters, the last of which may be
    introduced by `:` and then runs to the end of the line, spaces
    included. It is a simplified subset of the message format of section
    2.3.1 of RFC 2812: no tags, no CR-LF and no limit of 15 parameters. */
module Grammar {
  import opened Errors
  import opened Text

  datatype Message = Message(source: Option<string>, command: string, parameters: seq<string>)

  /** A token that the lexer reads back unchanged in a non-final
      position: not empty, no space, and no leading colon. */
  predicate Plain(t: string) {
    t != [] && ' ' !in t && t[0] != ':'
  }

  // ---------------------------------------------------------------------
  // Rendering (`Display for Message`)
  // ---------------------------------------------------------------------

  /** `" p1 p2 ... :last"`: every parameter but the last after a space,
      the last after a space and a colon, nothing for no parameters. */
  function RenderParameters(ps: seq<string>): (r: string)
    ensures r == [] <==> ps == []
    ensures ps != [] ==> r[0] == ' '
  {
    if |ps| == 0 then ""
    else if |ps| == 1 then " :" + ps[0]
    else " " + ps[0] + RenderParameters(ps[1..])
  }

  function Render(m: Message): (r: string)
    ensures m.source.Some? ==> r != [] && r[0] == ':'
    ensures m.source.None? ==> m.command <= r
  {
    (match m.source
     case Some(src) => ":" + src + " "
     case None => "")
    + m.command + RenderParameters(m.parameters)
  }

  // ---------------------------------------------------------------------
  // Parsing (`Lexer`), first as functions of the unread input
  // ---------------------------------------------------------------------

  /** `Lexer::read_part` on the unread input: the text up to the first
      space, and what follows that space with its leading spaces trimmed. */
  function SplitPart(input: string): (r: (string, string))
    ensures ' ' !in r.0
    ensures r.1 == [] || r.1[0] != ' '
    ensures input != [] ==> |r.1| < |input|
  {
    var (part, rest) := SplitOnce(input, ' ');
    (part, TrimStart(rest, ' '))
  }

  /** The parameter loop of `Lexer::parse`: a leading colon makes the
      rest of the input the last parameter; otherwise one part is read. */
  function ParseParameters(input: string): (ps: seq<string>)
    ensures ps == [] <==> input == []
    ensures |ps| <= |input|
    decreases |input|
  {
    if input == [] then []
    else if input[0] == ':' then [input[1..]]
    else
      var (p, rest) := SplitPart(input);
      [p] + ParseParameters(rest)
  }

  /** `Lexer::parse` on a whole line. It returns a message for every
      line: parsing never fails. */
  function ParseLine(line: string): (m: Message)
    ensures m.source.Some? <==> line != [] && line[0] == ':'
    ensures m.source.Some? ==> m.source.value == line[1..][..IndexOf(line[1..], ' ')]
    ensures m.source.Some? ==> ' ' !in m.source.value
    ensures ' ' !in m.command
  {
    var hasSource := line != [] && line[0] == ':';
    var source := if hasSource then Some(SplitPart(line[1..]).0) else None;
    var afterSource := if hasSource then SplitPart(line[1..]).1 else line;
    var command := SplitPart(afterSource);
    Message(source, command.0, ParseParameters(command.1))
  }

  // ---------------------------------------------------------------------
  // The lexer itself
  // ---------------------------------------------------------------------

  class Lexer {
    var input: string

    constructor (input: string)
      ensures this.input == input
    {
      this.input := input;
    }

    function Current(): (c: Option<char>)
      reads this
      ensures c.Some? <==> input != []
      ensures c.Some? ==> c.value == input[0]
    {
      if input == [] then None else Some(input[0])
    }

    method ReadPart() returns (part: string)
      modifies this
      ensures (part, input) == SplitPart(old(input))
    {
      var (p, rest) := SplitOnce(input, ' ');
      input := TrimStart(rest, ' ');
      part := p;
    }

    /** Parses the whole input. What is left unread is empty, or starts
        with the colon of the trailing parameter. */
    method Parse() returns (m: Message)
      modifies this
      ensures m == ParseLine(old(input))
      ensures input == [] || (input[0] == ':' && m.parameters != [] &&
                              m.parameters[|m.parameters| - 1] == input[1..])
    {
      var source: Option<string> := None;
      if Current() == Some(':') {
        input := input[1..];
        var s := ReadPart();
        source := Some(s);
      }
      var command := ReadPart();
      var parameters := ReadParameters();
      m := Message(source, command, parameters);
    }

    /** The parameter loop of `Lexer::parse`. */
    method ReadParameters() returns (parameters: seq<string>)
      modifies this
      ensures parameters == ParseParameters(old(input))
      ensures input == [] || (input[0] == ':' && parameters != [] &&
                              parameters[|parameters| - 1] == input[1..])
    {
      parameters := [];
      while true
        invariant parameters + ParseParameters(input) == ParseParameters(old(input))
        decreases |input|
      {
        match Current()
        case Some(c) =>
          if c == ':' {
            parameters := parameters + [input[1..]];
            break;
          }
          var p := ReadPart();
          parameters := parameters + [p];
        case None =>
          assert parameters + [] == parameters;
          break;
      }
    }
  }

  /** `From<&str> for Message`. */
  method FromLine(line: string) returns (m: Message)
    ensures m == ParseLine(line)
  {
    var lexer := new Lexer(line);
    m := lexer.Parse();
  }

  // ---------------------------------------------------------------------
  // Properties of the grammar
  // ---------------------------------------------------------------------

  lemma SplitPartAt(w: string, rest: string)
    requires ' ' !in w
    requires rest == [] || rest[0] != ' '
    ensures SplitPart(w + " " + rest) == (w, rest)
  {
    SplitOnceAt(w, ' ', rest);
  }

  lemma SplitPartWhole(w: string)
    requires ' ' !in w
    ensures SplitPart(w) == (w, "")
  {
    SplitOnceNone(w, ' ');
  }

  /** A part read from input that starts with neither a space nor a
      colon is a plain token. */
  lemma PartIsPlain(input: string)
    requires input != [] && input[0] != ' ' && input[0] != ':'
    ensures Plain(SplitPart(input).0)
  {
    var i := IndexOf(input, ' ');
    assert i > 0;
    assert SplitPart(input).0 == input[..i];
  }

  /** What `read_part` leaves unread is a suffix of its input. */
  lemma PartRestIsSuffix(input: string)
    ensures var rest := SplitPart(input).1; input[|input| - |rest|..] == rest
  {
    var after := SplitOnce(input, ' ').1;
    TrimStartSuffix(after, ' ');
    assert input[|input| - |after|..] == after;
  }

  /** A parameter read with `read_part` is followed by the parameters of
      what it leaves unread. */
  lemma ParseParametersAfterPart(input: string)
    requires input != [] && input[0] != ':'
    ensures ParseParameters(input) == [SplitPart(input).0] + ParseParameters(SplitPart(input).1)
  {
  }

  /** Every parameter the lexer reads with `read_part` is a plain token,
      so runs of spaces never produce empty parameters; only the last
      parameter can differ, and then it is all the input after a colon. */
  lemma {:induction false} ParametersAreTokens(input: string)
    requires input == [] || input[0] != ' '
    ensures var ps := ParseParameters(input);
      && (forall i :: 0 <= i < |ps| - 1 ==> Plain(ps[i]))
      && (ps != [] && !Plain(ps[|ps| - 1]) ==>
            |ps[|ps| - 1]| < |input| && input[|input| - |ps[|ps| - 1]| - 1..] == ":" + ps[|ps| - 1])
    decreases |input|
  {
    if input != [] && input[0] != ':' {
      var (p, rest) := SplitPart(input);
      ParametersAreTokens(rest);
      ParseParametersAfterPart(input);
      PartIsPlain(input);
      PartRestIsSuffix(input);
    }
  }

  function Spaces(k: nat): (s: string)
    ensures |s| == k
  {
    if k == 0 then "" else " " + Spaces(k - 1)
  }

  /** A run of one or more spaces after a plain token is skipped: it
      separates two parameters and yields no empty one. */
  lemma SpacesSkipped(w: string, k: nat, rest: string)
    requires Plain(w) && k >= 1
    requires rest == [] || rest[0] != ' '
    ensures ParseParameters(w + Spaces(k) + rest) == [w] + ParseParameters(rest)
  {
    SplitPartSpaces(w, k, rest);
    ParseParametersAfterPart(w + Spaces(k) + rest);
  }

  lemma SplitPartSpaces(w: string, k: nat, rest: string)
    requires ' ' !in w && k >= 1
    requires rest == [] || rest[0] != ' '
    ensures SplitPart(w + Spaces(k) + rest) == (w, rest)
  {
    var t := Spaces(k - 1) + rest;
    assert Spaces(k) == " " + Spaces(k - 1);
    assert w + Spaces(k) + rest == w + " " + t;
    SplitOnceAt(w, ' ', t);
    TrimSpaces(k - 1, rest);
  }

  lemma {:induction false} TrimSpaces(k: nat, rest: string)
    requires rest == [] || rest[0] != ' '
    ensures TrimStart(Spaces(k) + rest, ' ') == rest
  {
    if k > 0 {
      var t := Spaces(k - 1) + rest;
      assert (Spaces(k) + rest)[1..] == t;
      TrimSpaces(k - 1, rest);
    }
  }

  /** Rendering puts a colon before the last parameter, so a rendered
      line with parameters always ends with `" :"` and that parameter. */
  lemma {:induction false} RenderEndsWithTrailing(ps: seq<string>)
    requires ps != []
    ensures var r := RenderParameters(ps); var last := ps[|ps| - 1];
      |r| >= |last| + 2 && r[|r| - |last| - 2..] == " :" + last
  {
    if |ps| > 1 {
      RenderEndsWithTrailing(ps[1..]);
      var r := RenderParameters(ps);
      assert r == " " + ps[0] + RenderParameters(ps[1..]);
    }
  }

  /** One plain parameter followed by a space is read as it is. */
  lemma ParseParametersStep(w: string, rest: string)
    requires Plain(w)
    requires rest == [] || rest[0] != ' '
    ensures ParseParameters(w + " " + rest) == [w] + ParseParameters(rest)
  {
    SplitPartAt(w, rest);
    assert (w + " " + rest)[0] == w[0];
  }

  /** The parameters a message renders to are lexed back unchanged, the
      middle ones because they are plain and the last one because it is
      introduced by a colon. */
  lemma {:induction false} ParseRenderParameters(ps: seq<string>)
    requires ps != []
    requires forall i :: 0 <= i < |ps| - 1 ==> Plain(ps[i])
    ensures ParseParameters(RenderParameters(ps)[1..]) == ps
  {
    if |ps| == 1 {
      assert RenderParameters(ps)[1..] == ":" + ps[0];
    } else {
      var tail := RenderParameters(ps[1..]);
      assert tail[0] == ' ';
      assert RenderParameters(ps)[1..] == ps[0] + " " + tail[1..];
      ParseRenderParameters(ps[1..]);
      assert tail[1..][0] == ':' || tail[1..][0] == ps[1][0];
      ParseParametersStep(ps[0], tail[1..]);
    }
  }

  /** After the command come the parameters, each read back unchanged. */
  lemma CommandThenParameters(command: string, ps: seq<string>)
    requires Plain(command)
    requires forall i :: 0 <= i < |ps| - 1 ==> Plain(ps[i])
    ensures var r := SplitPart(command + RenderParameters(ps));
      r.0 == command && ParseParameters(r.1) == ps
  {
    if ps == [] {
      assert command + RenderParameters(ps) == command;
      SplitPartWhole(command);
    } else {
      RenderedParametersFollow(command, ps);
      ParseRenderParameters(ps);
    }
  }

  lemma RenderedParametersFollow(command: string, ps: seq<string>)
    requires ' ' !in command && ps != []
    requires |ps| > 1 ==> Plain(ps[0])
    ensures SplitPart(command + RenderParameters(ps)) == (command, RenderParameters(ps)[1..])
  {
    var rp := RenderParameters(ps);
    assert rp[0] == ' ';
    assert command + rp == command + " " + rp[1..];
    assert rp[1..][0] == ':' || rp[1..][0] == ps[0][0];
    SplitPartAt(command, rp[1..]);
  }

  /** A message whose fields the line format can carry: a source without
      spaces, a plain command, and plain parameters except the last. */
  predicate WellFormed(m: Message) {
    && (m.source.Some? ==> ' ' !in m.source.value)
    && Plain(m.command)
    && (forall i :: 0 <= i < |m.parameters| - 1 ==> Plain(m.parameters[i]))
  }

  /** A line with a source: the source is read up to the first space. */
  lemma ParseLineWithSource(src: string, afterSource: string)
    requires ' ' !in src
    requires afterSource == [] || afterSource[0] != ' '
    ensures var r := SplitPart(afterSource);
      ParseLine(":" + src + " " + afterSource) == Message(Some(src), r.0, ParseParameters(r.1))
  {
    var line := ":" + src + " " + afterSource;
    assert line[1..] == src + " " + afterSource;
    SplitPartAt(src, afterSource);
  }

  /** A line without a leading colon has no source. */
  lemma ParseLineWithoutSource(line: string)
    requires line == [] || line[0] != ':'
    ensures var r := SplitPart(line);
      ParseLine(line) == Message(None, r.0, ParseParameters(r.1))
  {
  }

  /** Parsing a rendered well-formed message gives the message back. */
  lemma ParseRender(m: Message)
    requires WellFormed(m)
    ensures ParseLine(Render(m)) == m
  {
    var afterSource := m.command + RenderParameters(m.parameters);
    assert afterSource[0] == m.command[0];
    CommandThenParameters(m.command, m.parameters);
    match m.source
    case Some(src) =>
      assert Render(m) == ":" + src + " " + afterSource;
      ParseLineWithSource(src, afterSource);
    case None =>
      assert Render(m) == afterSource;
      ParseLineWithoutSource(afterSource);
  }

  /** The three lines of the source's `parse_rfc` test. Each line is the
      rendering of the expected message, which is well formed. */
  lemma ParseRfcList()
    ensures ParseLine(":irc.example.com CAP * LIST :")
         == Message(Some("irc.example.com"), "CAP", ["*", "LIST", ""])
  {
    var m := Message(Some("irc.example.com"), "CAP", ["*", "LIST", ""]);
    RenderRfcList();
    assert WellFormed(m);
    ParseRender(m);
  }

  lemma ParseRfcLs()
    ensures ParseLine("CAP * LS :multi-prefix sasl")
         == Message(None, "CAP", ["*", "LS", "multi-prefix sasl"])
  {
    var m := Message(None, "CAP", ["*", "LS", "multi-prefix sasl"]);
    RenderRfcLs();
    assert WellFormed(m);
    ParseRender(m);
  }

  lemma ParseRfcReq()
    ensures ParseLine("CAP REQ :sasl message-tags foo")
         == Message(None, "CAP", ["REQ", "sasl message-tags foo"])
  {
    var m := Message(None, "CAP", ["REQ", "sasl message-tags foo"]);
    RenderRfcReq();
    assert WellFormed(m);
    ParseRender(m);
  }

  lemma RenderRfcList()
    ensures var m := Message(Some("irc.example.com"), "CAP", ["*", "LIST", ""]);
      Render(m) == ":irc.example.com CAP * LIST :"
  {
  }

  lemma RenderRfcLs()
    ensures var m := Message(None, "CAP", ["*", "LS", "multi-prefix sasl"]);
      Render(m) == "CAP * LS :multi-prefix sasl"
  {
  }

  lemma RenderRfcReq()
    ensures var m := Message(None, "CAP", ["REQ", "sasl message-tags foo"]);
      Render(m) == "CAP REQ :sasl message-tags foo"
  {
  }
}
