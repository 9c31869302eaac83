/** How the encoder of src/proto/ser.rs and the decoder of
    src/proto/de.rs fit together, and how both fit the line grammar of
    src/lib.rs.

    Tokens carry no types and no field boundaries: the decoder recovers
    an absent `Option` only from how many tokens are left, and a
    sequence only from the commas in its one token. So values round-trip
    exactly when each field is a single token (an atom, or a list of
    atoms whose tokens have no comma and whose last token is not empty),
    and no present optional field is followed by an absent one. The
    commands of src/proto/mod.rs are such values; the last lemmas show
    what happens to values that are not. */
module RoundTrip {
  import opened Errors
  import opened Text
  import opened Scalars
  import opened Values
  import opened Grammar
  import opened Ser
  import opened De

  /** A scalar value of a scalar shape (an integer within its width). */
  predicate AtomOf(shape: Shape, v: Value) {
    match shape
    case Str => v.VStr?
    case UInt(bits) => v.VNat? && v.n < Pow2(bits)
    case Bool => v.VBool?
    case Char => v.VChar?
    case _ => false
  }

  /** The token of an atom: the one token it encodes to, which parses back
      to it. */
  function AtomToken(shape: Shape, v: Value): (t: string)
    requires AtomOf(shape, v)
    ensures Encode(v) == Ok([t])
    ensures ParseScalar(shape, t) == Ok(v)
  {
    if v.VStr? then v.s
    else if v.VNat? then
      ParseFormatUInt(v.n, shape.bits);
      FormatNat(v.n)
    else if v.VBool? then FormatBool(v.b)
    else FormatChar(v.c)
  }

  /** The tokens of a list of atoms, which are the tokens the encoder joins. */
  function AtomTokens(elem: Shape, items: seq<Value>): (ts: seq<string>)
    requires forall i :: 0 <= i < |items| ==> AtomOf(elem, items[i])
    ensures EncodeAll(items) == Ok(ts)
    ensures |ts| == |items|
    ensures forall i :: 0 <= i < |items| ==> ts[i] == AtomToken(elem, items[i])
  {
    if items == [] then []
    else [AtomToken(elem, items[0])] + AtomTokens(elem, items[1..])
  }

  /** A sequence of atoms whose joined token splits back into them. */
  predicate ListOf(shape: Shape, v: Value) {
    && shape.Seq? && IsScalar(shape.elem) && v.VSeq?
    && (forall i :: 0 <= i < |v.items| ==>
          AtomOf(shape.elem, v.items[i]) && ',' !in AtomToken(shape.elem, v.items[i]))
    && (v.items == [] || AtomToken(shape.elem, v.items[|v.items| - 1]) != "")
  }

  /** Text values, one per piece of text. */
  function Strs(ss: seq<string>): (vs: seq<Value>)
    ensures |vs| == |ss|
    ensures forall i :: 0 <= i < |ss| ==> vs[i] == VStr(ss[i])
  {
    if ss == [] then [] else [VStr(ss[0])] + Strs(ss[1..])
  }

  /** Texts without commas, the last not empty, make a list of atoms. */
  lemma StrsListOf(xs: seq<string>)
    requires forall i :: 0 <= i < |xs| ==> ',' !in xs[i]
    requires xs == [] || xs[|xs| - 1] != ""
    ensures ListOf(Seq(Str), VSeq(Strs(xs)))
  {
    var items := Strs(xs);
    forall i | 0 <= i < |items|
      ensures AtomOf(Str, items[i]) && ',' !in AtomToken(Str, items[i])
    {
      assert AtomToken(Str, items[i]) == xs[i];
    }
    if xs != [] {
      assert AtomToken(Str, items[|items| - 1]) == xs[|xs| - 1];
    }
  }

  /** A value that encodes to exactly one token. */
  predicate Single(shape: Shape, v: Value) {
    AtomOf(shape, v) || ListOf(shape, v)
  }

  function Token(shape: Shape, v: Value): (t: string)
    requires Single(shape, v)
    ensures Encode(v) == Ok([t])
  {
    if AtomOf(shape, v) then AtomToken(shape, v)
    else Join(AtomTokens(shape.elem, v.items), ',')
  }

  /** A single-token value decodes from its token, and only that token is
      read. */
  lemma SingleDecodes(shape: Shape, v: Value, c: Cursor)
    requires Single(shape, v)
    requires Take(c).0 == Ok(Token(shape, v))
    ensures DecodeValue(shape, c) == (Ok(v), Take(c).1)
  {
    if !AtomOf(shape, v) {
      var xs := AtomTokens(shape.elem, v.items);
      assert Pieces(shape.elem, xs, v.items);
      DecodeJoinedSeq(shape.elem, xs, v.items, c);
    }
  }

  /** A field of a struct or tuple: a single-token value, or an optional
      one. */
  predicate FieldOf(shape: Shape, v: Value) {
    || Single(shape, v)
    || (shape.Opt? && (v == VNone || (v.VSome? && Single(shape.inner, v.inner))))
  }

  /** The tokens of one field: none for an absent optional, else one. */
  function FieldToken(shape: Shape, v: Value): (ts: seq<string>)
    requires FieldOf(shape, v)
    ensures Encode(v) == Ok(ts)
    ensures |ts| == if v == VNone then 0 else 1
  {
    if Single(shape, v) then [Token(shape, v)]
    else if v == VNone then []
    else [Token(shape.inner, v.inner)]
  }

  predicate FieldsOf(shapes: seq<Shape>, vals: seq<Value>) {
    |shapes| == |vals| && forall i :: 0 <= i < |vals| ==> FieldOf(shapes[i], vals[i])
  }

  /** How many fields are absent optionals. */
  function Absent(vals: seq<Value>): nat
  {
    if vals == [] then 0 else (if vals[0] == VNone then 1 else 0) + Absent(vals[1..])
  }

  /** The tokens of a row of fields, which are what the encoder gives; one
      for each field that is not an absent optional. */
  function FieldTokens(shapes: seq<Shape>, vals: seq<Value>): (ts: seq<string>)
    requires FieldsOf(shapes, vals)
    ensures EncodeAll(vals) == Ok(ts)
    ensures |ts| == |vals| - Absent(vals)
  {
    if vals == [] then []
    else FieldToken(shapes[0], vals[0]) + FieldTokens(shapes[1..], vals[1..])
  }

  /** No present optional field comes before an absent one. */
  predicate AbsentFirst(vals: seq<Value>) {
    forall i, j :: 0 <= i < j < |vals| && vals[i].VSome? ==> vals[j] != VNone
  }

  /** A row of three fields, of which only the last may be optional. */
  lemma RowOfThree(s0: Shape, s1: Shape, s2: Shape, v0: Value, v1: Value, v2: Value)
    requires FieldOf(s0, v0) && FieldOf(s1, v1) && FieldOf(s2, v2)
    requires !v0.VSome? && !v1.VSome?
    ensures FieldsOf([s0, s1, s2], [v0, v1, v2]) && AbsentFirst([v0, v1, v2])
  {
  }

  lemma {:induction false} NoneAbsent(vals: seq<Value>)
    requires forall j :: 0 <= j < |vals| ==> vals[j] != VNone
    ensures Absent(vals) == 0
  {
    if vals != [] {
      assert forall j :: 0 <= j < |vals| - 1 ==> vals[1..][j] == vals[j + 1];
      NoneAbsent(vals[1..]);
    }
  }

  lemma AbsentAtMost(vals: seq<Value>)
    ensures Absent(vals) <= |vals|
  {
  }

  /** A single-token field reads its token, whatever `fields` says. */
  lemma SingleField(shape: Shape, v: Value, c: Cursor, rest: seq<string>)
    requires Single(shape, v) && c.fields >= 1
    requires Pending(c) == [Token(shape, v)] + rest
    ensures DecodeField(shape, c).0 == Ok(v)
    ensures Pending(DecodeField(shape, c).1) == rest
    ensures DecodeField(shape, c).1.fields == c.fields - 1
  {
    TakePending(c);
    SingleDecodes(shape, v, c);
  }

  /** An optional field is read as absent when fewer tokens are left than
      fields outstanding, and nothing is read. */
  lemma AbsentField(shape: Shape, c: Cursor)
    requires shape.Opt? && 1 <= c.fields && Available(c) < c.fields
    ensures DecodeField(shape, c) == (Ok(VNone), c.(fields := c.fields - 1))
  {
  }

  /** An optional field is read as present when at least as many tokens
      are left as fields outstanding. */
  lemma PresentField(shape: Shape, v: Value, c: Cursor, rest: seq<string>)
    requires shape.Opt? && Single(shape.inner, v) && 1 <= c.fields <= Available(c)
    requires Pending(c) == [Token(shape.inner, v)] + rest
    ensures DecodeField(shape, c).0 == Ok(VSome(v))
    ensures Pending(DecodeField(shape, c).1) == rest
    ensures DecodeField(shape, c).1.fields == c.fields - 1
  {
    TakePending(c);
    SingleDecodes(shape.inner, v, c);
  }

  /** The first field of a row, decoded with as many fields outstanding as
      the row has. */
  lemma FirstField(shapes: seq<Shape>, vals: seq<Value>, c: Cursor)
    requires FieldsOf(shapes, vals) && AbsentFirst(vals) && vals != []
    requires Pending(c) == FieldTokens(shapes, vals) && c.fields == |shapes|
    ensures DecodeField(shapes[0], c).0 == Ok(vals[0])
    ensures Pending(DecodeField(shapes[0], c).1) == FieldTokens(shapes[1..], vals[1..])
    ensures DecodeField(shapes[0], c).1.fields == |shapes| - 1
  {
    var rest := FieldTokens(shapes[1..], vals[1..]);
    assert Pending(c) == FieldToken(shapes[0], vals[0]) + rest;
    if Single(shapes[0], vals[0]) {
      SingleField(shapes[0], vals[0], c, rest);
    } else if vals[0] == VNone {
      AbsentAtMost(vals[1..]);
      AbsentField(shapes[0], c);
    } else {
      assert forall j :: 0 <= j < |vals| ==> vals[j] != VNone by {
        assert forall j :: 0 < j < |vals| ==> vals[j] != VNone;
      }
      NoneAbsent(vals);
      PresentField(shapes[0], vals[0].inner, c, rest);
    }
  }

  lemma FieldsTail(shapes: seq<Shape>, vals: seq<Value>)
    requires FieldsOf(shapes, vals) && AbsentFirst(vals) && vals != []
    ensures FieldsOf(shapes[1..], vals[1..]) && AbsentFirst(vals[1..])
  {
    assert forall i :: 0 <= i < |vals| - 1 ==> vals[1..][i] == vals[i + 1] && shapes[1..][i] == shapes[i + 1];
  }

  /** A row of fields decodes from its tokens when the decoder expects
      exactly that many fields, and every token is read. */
  lemma {:induction false} FieldsDecode(shapes: seq<Shape>, vals: seq<Value>, c: Cursor)
    requires FieldsOf(shapes, vals) && AbsentFirst(vals)
    requires Pending(c) == FieldTokens(shapes, vals) && c.fields == |shapes|
    ensures DecodeFields(shapes, c).0 == Ok(vals)
    ensures Available(DecodeFields(shapes, c).1) == 0
    ensures DecodeFields(shapes, c).1.fields == 0
    decreases |shapes|
  {
    if shapes != [] {
      FirstField(shapes, vals, c);
      var c1 := DecodeField(shapes[0], c).1;
      FieldsTail(shapes, vals);
      FieldsDecode(shapes[1..], vals[1..], c1);
      assert [vals[0]] + vals[1..] == vals;
    }
  }

  /** The values a whole message carries: a unit, a single-token value, a
      row of fields (a struct, tuple or struct variant), or an enum variant
      whose payload is one of these. */
  predicate Flat(shape: Shape, v: Value)
    decreases v
  {
    || (shape == Unit && v == VUnit)
    || Single(shape, v)
    || (shape.Tuple? && v.VTuple? && FieldsOf(shape.fields, v.fields) && AbsentFirst(v.fields))
    || (shape.Enum? && v.VVariant? && Lookup(shape.variants, v.name).Some? &&
        Flat(shape.variants[Lookup(shape.variants, v.name).value].payload, v.payload))
  }

  /** The tokens of a flat value, which are what the encoder gives. */
  function Tokens(shape: Shape, v: Value): (ts: seq<string>)
    requires Flat(shape, v)
    ensures Encode(v) == Ok(ts)
    decreases v
  {
    if shape == Unit then []
    else if Single(shape, v) then [Token(shape, v)]
    else if shape.Tuple? then FieldTokens(shape.fields, v.fields)
    else [v.name] + Tokens(shape.variants[Lookup(shape.variants, v.name).value].payload, v.payload)
  }

  /** A variant of an enum with a flat payload is flat, and its tokens are
      its name and then the payload's. */
  lemma VariantTokens(variants: seq<VariantShape>, i: nat, payload: Value)
    requires DistinctNames(variants) && i < |variants| && Flat(variants[i].payload, payload)
    ensures Flat(Enum(variants), VVariant(variants[i].name, payload))
    ensures Tokens(Enum(variants), VVariant(variants[i].name, payload)) ==
      [variants[i].name] + Tokens(variants[i].payload, payload)
  {
    LookupIndex(variants, i);
  }

  /** A row of fields is flat when no present optional comes before an
      absent one, and its tokens are the fields' tokens. */
  lemma RowTokens(shapes: seq<Shape>, vals: seq<Value>)
    requires FieldsOf(shapes, vals) && AbsentFirst(vals)
    ensures Flat(Tuple(shapes), VTuple(vals))
    ensures Tokens(Tuple(shapes), VTuple(vals)) == FieldTokens(shapes, vals)
  {
  }

  /** A flat value decodes from its tokens, with every token read. */
  lemma {:induction false} FlatDecodes(shape: Shape, v: Value, c: Cursor)
    requires Flat(shape, v)
    requires Pending(c) == Tokens(shape, v) && c.fields == 0
    ensures DecodeValue(shape, c).0 == Ok(v)
    ensures Available(DecodeValue(shape, c).1) == 0
    decreases v
  {
    if shape == Unit {
    } else if Single(shape, v) {
      TakePending(c);
      SingleDecodes(shape, v, c);
    } else if shape.Tuple? {
      FieldsDecode(shape.fields, v.fields, c.(fields := |shape.fields|));
    } else {
      var i := Lookup(shape.variants, v.name).value;
      TakePending(c);
      var c1 := Take(c).1;
      FlatDecodes(shape.variants[i].payload, v.payload, c1);
    }
  }

  /** Encoding a flat enum value, making the tokens a message and decoding
      that message gives the value back, with every token read. */
  lemma MessageRoundTrip(shape: Shape, v: Value)
    requires shape.Enum? && Flat(shape, v)
    ensures Encode(v).Ok? && ToMessage(Encode(v).value).Ok?
    ensures var c := Initial(ToMessage(Encode(v).value).value);
      DecodeValue(shape, c).0 == Ok(v) && Available(DecodeValue(shape, c).1) == 0
  {
    var m := ToMessage(Tokens(shape, v)).value;
    FlatDecodes(shape, v, Initial(m));
  }

  /** Tokens that a line carries unchanged: the command and every
      parameter but the last are plain words. */
  predicate LineSafe(ts: seq<string>) {
    ts != [] && Plain(ts[0]) && forall i :: 1 <= i < |ts| - 1 ==> Plain(ts[i])
  }

  /** A plain command and a plain first parameter, followed by at most one
      more parameter (the trailing one, which may hold anything), pass
      through a line. */
  lemma LineSafeTwo(command: string, first: string, rest: seq<string>)
    requires Plain(command) && Plain(first) && |rest| <= 1
    ensures LineSafe([command, first] + rest)
  {
    var ts := [command, first] + rest;
    assert ts[0] == command && ts[1] == first;
  }

  /** The whole path: encode, make a message, render it as a line, parse
      the line and decode the message, which gives the value back. */
  lemma LineRoundTrip(shape: Shape, v: Value)
    requires shape.Enum? && Flat(shape, v) && LineSafe(Tokens(shape, v))
    ensures Encode(v).Ok? && ToMessage(Encode(v).value).Ok?
    ensures DecodeValue(shape, Initial(ParseLine(Render(ToMessage(Encode(v).value).value)))).0 == Ok(v)
  {
    var ts := Tokens(shape, v);
    var m := ToMessage(ts).value;
    assert forall i :: 0 <= i < |m.parameters| - 1 ==> m.parameters[i] == ts[i + 1] && Plain(ts[i + 1]);
    ParseRender(m);
    MessageRoundTrip(shape, v);
  }
}
