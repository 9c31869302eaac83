/** The token decoder of src/proto/de.rs. The decoder is a cursor over a
    message: `head` holds a token to be read first (the command at the
    start), `stack` the parameters in reverse order so that the next one
    is popped from its end, and `fields` counts the fields that enclosing
    tuples and structs still have to decode. An `Option` is present
    exactly when at least `fields` tokens are left, and a sequence is
    read from one token by peeling comma-separated pieces off it.

    The functions below state what decoding a shape does to a cursor;
    the `Deserializer` class carries the source's mutable state and its
    methods are proved to do the same. */
module De {
  import opened Errors
  import opened Text
  import opened Scalars
  import opened Values
  import opened Grammar

  datatype Cursor = Cursor(head: Option<string>, stack: seq<string>, fields: nat)

  /** The tokens still to be read, in the order the cursor yields them. */
  function Pending(c: Cursor): seq<string>
  {
    (if c.head.Some? then [c.head.value] else []) + Reverse(c.stack)
  }

  /** `Deserializer::from_message`: the command is read first, then the
      parameters in their original order; no field is outstanding. */
  function Initial(m: Message): (c: Cursor)
    ensures Pending(c) == [m.command] + m.parameters
    ensures c.fields == 0
  {
    ReverseReverse(m.parameters);
    Cursor(Some(m.command), Reverse(m.parameters), 0)
  }

  /** `Deserializer::available`: how many tokens are left. */
  function Available(c: Cursor): (n: nat)
    ensures n == |Pending(c)|
  {
    (if c.head.Some? then 1 else 0) + |c.stack|
  }

  /** `Deserializer::read_part`: the next pending token, or Eof when none
      is left; each token read lowers `Available` by one. */
  function Take(c: Cursor): (r: (Result<string>, Cursor))
    ensures r.0.Err? <==> Available(c) == 0
    ensures r.0.Err? ==> r.0.error == Eof && r.1 == c
    ensures r.0.Ok? ==> Pending(c) == [r.0.value] + Pending(r.1)
    ensures r.0.Ok? ==> Available(r.1) == Available(c) - 1
    ensures r.1.head == None && r.1.fields == c.fields && r.1.stack <= c.stack
  {
    if c.head.Some? then (Ok(c.head.value), c.(head := None))
    else if c.stack == [] then (Err(Eof), c)
    else
      var n := |c.stack|;
      assert Reverse(c.stack) == [c.stack[n - 1]] + Reverse(c.stack[..n - 1]);
      (Ok(c.stack[n - 1]), c.(stack := c.stack[..n - 1]))
  }

  /** Reading from a cursor with tokens pending gives the first of them. */
  lemma TakePending(c: Cursor)
    requires Pending(c) != []
    ensures Take(c).0 == Ok(Pending(c)[0])
    ensures Pending(Take(c).1) == Pending(c)[1..]
  {
    var (t, c1) := Take(c);
    assert Pending(c) == [t.value] + Pending(c1);
  }

  predicate IsScalar(shape: Shape) {
    shape.Str? || shape.UInt? || shape.Bool? || shape.Char?
  }

  /** The value of one scalar token: text as it is, numbers, booleans and
      characters through `str::parse`, whose failure is a Deserialize error. */
  function ParseScalar(shape: Shape, token: string): (r: Result<Value>)
    requires IsScalar(shape)
    ensures r.Err? ==> r.error.Deserialize?
    ensures shape.Str? ==> r == Ok(VStr(token))
  {
    match shape
    case Str => Ok(VStr(token))
    case UInt(bits) =>
      (match ParseUInt(token, bits)
       case Ok(n) => Ok(VNat(n))
       case Err(e) => Err(e))
    case Bool =>
      (match ParseBool(token)
       case Ok(b) => Ok(VBool(b))
       case Err(e) => Err(e))
    case Char =>
      (match ParseChar(token)
       case Ok(ch) => Ok(VChar(ch))
       case Err(e) => Err(e))
  }

  function HeadLength(c: Cursor): nat {
    if c.head.Some? then |c.head.value| else 0
  }

  /** What decoding `shape` from `c` yields, and the cursor after it.
      Parameters are only ever consumed, never put back, and a decode that
      succeeds leaves `fields` as it found it. */
  function DecodeValue(shape: Shape, c: Cursor): (r: (Result<Value>, Cursor))
    ensures r.1.stack <= c.stack
    ensures r.0.Ok? ==> r.1.fields == c.fields
    decreases shape, 2, 0, 0
  {
    match shape
    case Str => DecodeScalar(shape, c)
    case UInt(_) => DecodeScalar(shape, c)
    case Bool => DecodeScalar(shape, c)
    case Char => DecodeScalar(shape, c)
    case Unit => (Ok(VUnit), c)
    case Opt(inner) =>
      if Available(c) >= c.fields then AsSome(DecodeValue(inner, c)) else (Ok(VNone), c)
    case Seq(elem) => AsSeq(DecodeItems(elem, c))
    case Tuple(shapes) => AsTuple(DecodeFields(shapes, c.(fields := c.fields + |shapes|)))
    case Enum(variants) =>
      var (tag, c1) := Take(c);
      if tag.Err? then (Err(tag.error), c1)
      else
        (match Lookup(variants, tag.value)
         case None => (Err(Error.Deserialize("unknown variant")), c1)
         case Some(i) =>
           assert variants[i] in variants;
           AsVariant(tag.value, DecodeValue(variants[i].payload, c1)))
    case Map(_, _) => (Err(UnsupportedType), c)
    case Any => (Err(UnsupportedType), c)
  }

  function AsSome(r: (Result<Value>, Cursor)): (Result<Value>, Cursor) {
    (if r.0.Err? then r.0 else Ok(VSome(r.0.value)), r.1)
  }

  function AsSeq(r: (Result<seq<Value>>, Cursor)): (Result<Value>, Cursor) {
    (if r.0.Err? then Err(r.0.error) else Ok(VSeq(r.0.value)), r.1)
  }

  function AsTuple(r: (Result<seq<Value>>, Cursor)): (Result<Value>, Cursor) {
    (if r.0.Err? then Err(r.0.error) else Ok(VTuple(r.0.value)), r.1)
  }

  function AsVariant(tag: string, r: (Result<Value>, Cursor)): (Result<Value>, Cursor) {
    (if r.0.Err? then r.0 else Ok(VVariant(tag, r.0.value)), r.1)
  }

  /** Puts `prefix` in front of the values of a successful result. */
  function Prepend(prefix: seq<Value>, r: (Result<seq<Value>>, Cursor)): (Result<seq<Value>>, Cursor)
  {
    (if r.0.Err? then r.0 else Ok(prefix + r.0.value), r.1)
  }

  /** A scalar reads exactly one token. */
  function DecodeScalar(shape: Shape, c: Cursor): (r: (Result<Value>, Cursor))
    requires IsScalar(shape)
    ensures r.1 == Take(c).1
    ensures Available(c) == 0 ==> r.0 == Err(Eof)
    ensures r.0.Err? && Available(c) > 0 ==> r.0.error.Deserialize?
  {
    var (t, c1) := Take(c);
    (if t.Err? then Err(t.error) else ParseScalar(shape, t.value), c1)
  }

  /** The struct `SeqAccess::next_element_seed`: one field, after which one
      field fewer is outstanding. */
  function DecodeField(shape: Shape, c: Cursor): (r: (Result<Value>, Cursor))
    requires c.fields >= 1
    ensures r.1.stack <= c.stack
    ensures r.0.Ok? ==> r.1.fields == c.fields - 1
    decreases shape, 3, 0, 0
  {
    var (v, c1) := DecodeValue(shape, c);
    if v.Err? then (v, c1) else (v, c1.(fields := c1.fields - 1))
  }

  /** The fields of a tuple or struct, in order. */
  function DecodeFields(shapes: seq<Shape>, c: Cursor): (r: (Result<seq<Value>>, Cursor))
    requires c.fields >= |shapes|
    ensures r.1.stack <= c.stack
    ensures r.0.Ok? ==> |r.0.value| == |shapes| && r.1.fields == c.fields - |shapes|
    decreases shapes, 0, 0, 0
  {
    if shapes == [] then (Ok([]), c)
    else
      var (v, c1) := DecodeField(shapes[0], c);
      if v.Err? then (Err(v.error), c1)
      else Prepend([v.value], DecodeFields(shapes[1..], c1))
  }

  /** The `Sequence::next_element_seed`: read one token; an empty token
      ends the sequence; otherwise its text up to the first comma is made
      the head for one element, and whatever follows that comma is put
      back as the head, whether the element decoded or not. An element
      read leaves less input behind. */
  function DecodeItem(elem: Shape, c: Cursor): (r: (Result<Option<Value>>, Cursor))
    ensures r.1.stack <= c.stack
    ensures r.0.Ok? ==> r.1.fields == c.fields
    ensures r.0.Ok? && r.0.value.Some? ==>
      |r.1.stack| < |c.stack| || (|r.1.stack| == |c.stack| && HeadLength(r.1) < HeadLength(c))
    decreases Seq(elem), 0, 0, 0
  {
    var (part, c1) := Take(c);
    if part.Err? then (Err(part.error), c1)
    else if part.value == "" then (Ok(None), c1)
    else
      var (p, rest) := SplitOnce(part.value, ',');
      var (v, c2) := DecodeValue(elem, c1.(head := Some(p)));
      (if v.Err? then Err(v.error) else Ok(Some(v.value)), c2.(head := Some(rest)))
  }

  /** The elements of a sequence, read until `DecodeItem` reports the end. */
  function DecodeItems(elem: Shape, c: Cursor): (r: (Result<seq<Value>>, Cursor))
    ensures r.1.stack <= c.stack
    ensures r.0.Ok? ==> r.1.fields == c.fields
    decreases Seq(elem), 1, |c.stack|, HeadLength(c)
  {
    var (n, c1) := DecodeItem(elem, c);
    if n.Err? then (Err(n.error), c1)
    else if n.value.None? then (Ok([]), c1)
    else Prepend([n.value.value], DecodeItems(elem, c1))
  }

  /** One turn of the loop that reads a sequence: `items` were read from
      `start` and left `before`; the next `DecodeItem` gave `n`, `after`. */
  lemma ItemsLoopStep(elem: Shape, start: Cursor, items: seq<Value>, before: Cursor,
                      n: Result<Option<Value>>, after: Cursor)
    requires Prepend(items, DecodeItems(elem, before)) == DecodeItems(elem, start)
    requires (n, after) == DecodeItem(elem, before)
    ensures n.Err? ==> DecodeItems(elem, start) == (Err(n.error), after)
    ensures n == Ok(None) ==> DecodeItems(elem, start) == (Ok(items), after)
    ensures n.Ok? && n.value.Some? ==>
      Prepend(items + [n.value.value], DecodeItems(elem, after)) == DecodeItems(elem, start)
  {
    if n == Ok(None) {
      assert items + [] == items;
    } else if n.Ok? {
      PrependTwice(items, [n.value.value], DecodeItems(elem, after));
    }
  }

  lemma PrependNothing(r: (Result<seq<Value>>, Cursor))
    ensures Prepend([], r) == r
  {
    if r.0.Ok? {
      assert [] + r.0.value == r.0.value;
    }
  }

  lemma PrependTwice(a: seq<Value>, b: seq<Value>, r: (Result<seq<Value>>, Cursor))
    ensures Prepend(a, Prepend(b, r)) == Prepend(a + b, r)
  {
    if r.0.Ok? {
      assert a + (b + r.0.value) == (a + b) + r.0.value;
    }
  }

  /** An `Option` is `Some` exactly when at least `fields` tokens are left;
      when it is `None` nothing is read. */
  lemma OptionRule(inner: Shape, c: Cursor)
    ensures DecodeValue(Opt(inner), c).0 == Ok(VNone) <==> Available(c) < c.fields
    ensures Available(c) < c.fields ==> DecodeValue(Opt(inner), c).1 == c
    ensures Available(c) >= c.fields && DecodeValue(Opt(inner), c).0.Ok? ==>
      DecodeValue(Opt(inner), c).0.value.VSome?
  {
  }

  /** Maps and self-describing values are refused whatever the input, and
      nothing is read. */
  lemma Unsupported(shape: Shape, c: Cursor)
    requires shape.Map? || shape.Any?
    ensures DecodeValue(shape, c) == (Err(UnsupportedType), c)
  {
  }

  /** An enum reads one token as its tag. No token left is Eof, a tag that
      names no variant is an error, and a unit variant reads nothing more. */
  lemma EnumTag(variants: seq<VariantShape>, c: Cursor)
    ensures Available(c) == 0 ==> DecodeValue(Enum(variants), c) == (Err(Eof), c)
    ensures Take(c).0.Ok? && Lookup(variants, Take(c).0.value).None? ==>
      DecodeValue(Enum(variants), c) == (Err(Error.Deserialize("unknown variant")), Take(c).1)
    ensures Take(c).0.Ok? && Lookup(variants, Take(c).0.value).Some? &&
            variants[Lookup(variants, Take(c).0.value).value].payload == Unit ==>
      DecodeValue(Enum(variants), c) == (Ok(VVariant(Take(c).0.value, VUnit)), Take(c).1)
  {
  }

  /** One element read by a sequence of scalars: the piece before the
      first comma is parsed, and the rest of the token becomes the head. */
  lemma ScalarItem(elem: Shape, c: Cursor, p: string, rest: string, v: Value)
    requires IsScalar(elem)
    requires Take(c).0.Ok? && Take(c).0.value != ""
    requires SplitOnce(Take(c).0.value, ',') == (p, rest)
    requires ParseScalar(elem, p) == Ok(v)
    ensures DecodeItem(elem, c) == (Ok(Some(v)), Take(c).1.(head := Some(rest)))
  {
    var d := Take(c).1.(head := Some(p));
    assert Take(d) == (Ok(p), Take(c).1);
  }

  /** Pieces of a sequence token and the scalar values they parse to. */
  predicate Pieces(elem: Shape, xs: seq<string>, vs: seq<Value>)
    requires IsScalar(elem)
  {
    |vs| == |xs| &&
    forall i :: 0 <= i < |xs| ==> ',' !in xs[i] && ParseScalar(elem, xs[i]) == Ok(vs[i])
  }

  /** One unfolding of `DecodeValue` for an option. */
  lemma OptionStep(inner: Shape, c: Cursor)
    ensures DecodeValue(Opt(inner), c) ==
      if Available(c) >= c.fields then AsSome(DecodeValue(inner, c)) else (Ok(VNone), c)
  {
  }

  /** One unfolding of `DecodeValue` for a sequence. */
  lemma SeqStep(elem: Shape, c: Cursor)
    ensures DecodeValue(Seq(elem), c) == AsSeq(DecodeItems(elem, c))
  {
  }

  /** The empty token is the empty sequence. */
  lemma EmptyToken(elem: Shape, c: Cursor)
    requires Take(c).0 == Ok("")
    ensures DecodeItems(elem, c) == (Ok([]), Take(c).1)
  {
  }

  lemma PiecesTail(elem: Shape, xs: seq<string>, vs: seq<Value>)
    requires IsScalar(elem) && Pieces(elem, xs, vs) && xs != []
    ensures Pieces(elem, xs[1..], vs[1..])
  {
    forall i | 0 <= i < |xs| - 1
      ensures ',' !in xs[1..][i] && ParseScalar(elem, xs[1..][i]) == Ok(vs[1..][i])
    {
      assert xs[1..][i] == xs[i + 1];
    }
  }

  /** The first element of a joined token, and what is left for the rest. */
  lemma JoinedStep(elem: Shape, xs: seq<string>, vs: seq<Value>, c: Cursor)
    requires IsScalar(elem) && Pieces(elem, xs, vs) && xs != []
    requires Take(c).0 == Ok(Join(xs, ','))
    requires xs[|xs| - 1] != ""
    ensures DecodeItems(elem, c) ==
      Prepend([vs[0]], DecodeItems(elem, Take(c).1.(head := Some(Join(xs[1..], ',')))))
  {
    if |xs| == 1 {
      SplitOnceNone(xs[0], ',');
    } else {
      SplitOnceJoin(xs, ',');
    }
    ScalarItem(elem, c, xs[0], Join(xs[1..], ','), vs[0]);
  }

  /** A known tag: the variant's payload is decoded from what follows. */
  lemma EnumPayload(variants: seq<VariantShape>, c: Cursor, i: nat)
    requires Take(c).0.Ok? && Lookup(variants, Take(c).0.value) == Some(i)
    ensures DecodeValue(Enum(variants), c) ==
      AsVariant(Take(c).0.value, DecodeValue(variants[i].payload, Take(c).1))
  {
  }

  /** A token that is the comma-join of pieces, none holding a comma and
      the last not empty, decodes as a sequence of scalars to the values of
      those pieces, and only that one token is read. The empty token is the
      empty sequence. */
  lemma {:induction false} DecodeJoined(elem: Shape, xs: seq<string>, vs: seq<Value>, c: Cursor)
    requires IsScalar(elem) && Pieces(elem, xs, vs)
    requires xs == [] || xs[|xs| - 1] != ""
    requires Take(c).0 == Ok(Join(xs, ','))
    ensures DecodeItems(elem, c) == (Ok(vs), Take(c).1)
    decreases |xs|
  {
    if xs == [] {
      EmptyToken(elem, c);
    } else {
      var c1 := Take(c).1;
      var c3 := c1.(head := Some(Join(xs[1..], ',')));
      JoinedStep(elem, xs, vs, c);
      PiecesTail(elem, xs, vs);
      assert Take(c3) == (Ok(Join(xs[1..], ',')), c1);
      DecodeJoined(elem, xs[1..], vs[1..], c3);
      assert [vs[0]] + vs[1..] == vs;
    }
  }

  /** The same, seen as the decoding of a sequence shape. */
  lemma DecodeJoinedSeq(elem: Shape, xs: seq<string>, vs: seq<Value>, c: Cursor)
    requires IsScalar(elem) && Pieces(elem, xs, vs)
    requires xs == [] || xs[|xs| - 1] != ""
    requires Take(c).0 == Ok(Join(xs, ','))
    ensures DecodeValue(Seq(elem), c) == (Ok(VSeq(vs)), Take(c).1)
  {
    DecodeJoined(elem, xs, vs, c);
  }

  class Deserializer {
    var head: Option<string>
    var stack: seq<string>
    var fields: nat

    function State(): Cursor
      reads this
    {
      Cursor(head, stack, fields)
    }

    /** `Deserializer::from_message`. */
    constructor FromMessage(m: Message)
      ensures State() == Initial(m)
    {
      head := Some(m.command);
      stack := Reverse(m.parameters);
      fields := 0;
    }

    /** `Deserializer::available`. */
    function Available(): (n: nat)
      reads this
      ensures n == |Pending(State())|
    {
      (if head.Some? then 1 else 0) + |stack|
    }

    /** `Deserializer::read_part`: take the head if there is one, else pop
        the next parameter. */
    method ReadPart() returns (r: Result<string>)
      modifies this
      ensures (r, State()) == Take(old(State()))
    {
      if head.Some? {
        r := Ok(head.value);
        head := None;
      } else if stack == [] {
        r := Err(Eof);
      } else {
        r := Ok(stack[|stack| - 1]);
        stack := stack[..|stack| - 1];
      }
    }

    /** The `de::Deserializer` methods, one arm per shape. */
    method Deserialize(shape: Shape) returns (r: Result<Value>)
      modifies this
      decreases shape, 2, 0, 0
      ensures (r, State()) == DecodeValue(shape, old(State()))
    {
      match shape
      case Str =>
        r := DeserializeScalar(shape);
      case UInt(_) =>
        r := DeserializeScalar(shape);
      case Bool =>
        r := DeserializeScalar(shape);
      case Char =>
        r := DeserializeScalar(shape);
      case Unit =>
        r := Ok(VUnit);
      case Opt(inner) =>
        r := DeserializeOption(inner);
      case Seq(elem) =>
        r := DeserializeSeq(elem);
      case Tuple(shapes) =>
        r := DeserializeTuple(shapes);
      case Enum(variants) =>
        r := DeserializeEnum(variants);
      case Map(_, _) =>
        r := Err(UnsupportedType);
      case Any =>
        r := Err(UnsupportedType);
    }

    /** `deserialize_str` and the `visits_fromstr` methods: read one
        token and parse it. */
    method DeserializeScalar(shape: Shape) returns (r: Result<Value>)
      requires IsScalar(shape)
      modifies this
      ensures (r, State()) == DecodeScalar(shape, old(State()))
    {
      var token := ReadPart();
      if token.Err? {
        return Err(token.error);
      }
      r := ParseScalar(shape, token.value);
    }

    /** `deserialize_option`: present exactly when at least `fields`
        tokens are left. */
    method DeserializeOption(inner: Shape) returns (r: Result<Value>)
      modifies this
      decreases Opt(inner), 1, 0, 0
      ensures (r, State()) == DecodeValue(Opt(inner), old(State()))
    {
      ghost var c := State();
      OptionStep(inner, c);
      if Available() >= fields {
        var v := Deserialize(inner);
        r := if v.Err? then v else Ok(VSome(v.value));
      } else {
        r := Ok(VNone);
      }
    }

    /** `deserialize_tuple` (and the struct forms that forward to it):
        add the arity to `fields`, then take that many elements. */
    method DeserializeTuple(shapes: seq<Shape>) returns (r: Result<Value>)
      modifies this
      decreases shapes, 1, 0, 0
      ensures (r, State()) == DecodeValue(Tuple(shapes), old(State()))
    {
      fields := fields + |shapes|;
      ghost var start := State();
      var values: seq<Value> := [];
      var i := 0;
      PrependNothing(DecodeFields(shapes, start));
      while i < |shapes|
        invariant 0 <= i <= |shapes|
        invariant fields >= |shapes| - i
        invariant Prepend(values, DecodeFields(shapes[i..], State())) == DecodeFields(shapes, start)
      {
        assert shapes[i..][0] == shapes[i];
        assert shapes[i..][1..] == shapes[i + 1..];
        var v := NextField(shapes[i]);
        if v.Err? {
          return Err(v.error);
        }
        PrependTwice(values, [v.value], DecodeFields(shapes[i + 1..], State()));
        values := values + [v.value];
        i := i + 1;
      }
      assert shapes[i..] == [];
      assert values + [] == values;
      r := Ok(VTuple(values));
    }

    /** The struct `SeqAccess::next_element_seed`. */
    method NextField(shape: Shape) returns (r: Result<Value>)
      requires fields >= 1
      modifies this
      decreases shape, 3, 0, 0
      ensures (r, State()) == DecodeField(shape, old(State()))
    {
      r := Deserialize(shape);
      if r.Ok? {
        fields := fields - 1;
      }
    }

    /** `deserialize_seq`: hand the `Sequence` access to the visitor. */
    method DeserializeSeq(elem: Shape) returns (r: Result<Value>)
      modifies this
      decreases Seq(elem), 1, 1, 0
      ensures (r, State()) == DecodeValue(Seq(elem), old(State()))
    {
      ghost var c := State();
      var items := ReadItems(elem);
      r := if items.Err? then Err(items.error) else Ok(VSeq(items.value));
      SeqStep(elem, c);
    }

    /** The visitor of a `Vec`: take elements until the access reports the
        end of the sequence. */
    method ReadItems(elem: Shape) returns (r: Result<seq<Value>>)
      modifies this
      decreases Seq(elem), 1, 0, 0
      ensures (r, State()) == DecodeItems(elem, old(State()))
    {
      ghost var start := State();
      var items: seq<Value> := [];
      PrependNothing(DecodeItems(elem, start));
      while true
        invariant Prepend(items, DecodeItems(elem, State())) == DecodeItems(elem, start)
        decreases |stack|, HeadLength(State())
      {
        ghost var before := State();
        var n := NextItem(elem);
        ItemsLoopStep(elem, start, items, before, n, State());
        if n.Err? {
          return Err(n.error);
        }
        if n.value.None? {
          return Ok(items);
        }
        items := items + [n.value.value];
      }
    }

    /** `Sequence::next_element_seed`. */
    method NextItem(elem: Shape) returns (r: Result<Option<Value>>)
      modifies this
      decreases Seq(elem), 0, 0, 0
      ensures (r, State()) == DecodeItem(elem, old(State()))
    {
      var part := ReadPart();
      if part.Err? {
        return Err(part.error);
      }
      if part.value == "" {
        return Ok(None);
      }
      var (p, rest) := SplitOnce(part.value, ',');
      head := Some(p);
      var v := Deserialize(elem);
      head := Some(rest);
      r := if v.Err? then Err(v.error) else Ok(Some(v.value));
    }
    /** `deserialize_enum` with `EnumAccess` and `VariantAccess`: read the
        tag, find its variant and decode that variant's payload. */
    method DeserializeEnum(variants: seq<VariantShape>) returns (r: Result<Value>)
      modifies this
      decreases variants, 1, 0, 0
      ensures (r, State()) == DecodeValue(Enum(variants), old(State()))
    {
      var tag := ReadPart();
      if tag.Err? {
        return Err(tag.error);
      }
      match Lookup(variants, tag.value)
      case None =>
        r := Err(Error.Deserialize("unknown variant"));
      case Some(i) =>
        assert variants[i] in variants;
        var v := Deserialize(variants[i].payload);
        r := if v.Err? then v else Ok(VVariant(tag.value, v.value));
    }
  }
}
