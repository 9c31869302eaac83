/** The token encoder of src/proto/ser.rs. A `Serializer` owns the list
    of tokens (`args`) that encoding appends to; scalars give one token,
    `None` and unit give none, a sequence gives one comma-joined token, a
    variant gives its name and then its payload's tokens, and a map is
    refused. `Encode` states the tokens a value gives, and the class's
    methods are proved to append exactly those. */
module Ser {
  import opened Errors
  import opened Text
  import opened Scalars
  import opened Values
  import opened Grammar

  /** Whether a map occurs anywhere in `v`; a map is the one thing the
      encoder refuses. */
  predicate HasMap(v: Value)
    decreases v, 1
  {
    match v
    case VMap(_) => true
    case VSome(x) => HasMap(x)
    case VSeq(items) => AnyHasMap(items)
    case VTuple(fields) => AnyHasMap(fields)
    case VVariant(_, payload) => HasMap(payload)
    case _ => false
  }

  predicate AnyHasMap(vs: seq<Value>)
    decreases vs, 0
  {
    vs != [] && (HasMap(vs[0]) || AnyHasMap(vs[1..]))
  }

  /** The tokens that serializing `v` appends, or the error it stops with.
      Encoding fails exactly when a map occurs in the value, and then
      with UnsupportedType. */
  function Encode(v: Value): (r: Result<seq<string>>)
    ensures r.Err? <==> HasMap(v)
    ensures r.Err? ==> r.error == UnsupportedType
    decreases v, 1
  {
    match v
    case VStr(s) => Ok([s])
    case VNat(n) => Ok([FormatNat(n)])
    case VBool(b) => Ok([FormatBool(b)])
    case VChar(c) => Ok([FormatChar(c)])
    case VUnit => Ok([])
    case VNone => Ok([])
    case VSome(x) => Encode(x)
    case VSeq(items) =>
      (match EncodeAll(items)
       case Ok(pieces) => Ok([Join(pieces, ',')])
       case Err(e) => Err(e))
    case VTuple(fields) => EncodeAll(fields)
    case VVariant(name, payload) =>
      (match Encode(payload)
       case Ok(tokens) => Ok([name] + tokens)
       case Err(e) => Err(e))
    case VMap(_) => Err(UnsupportedType)
  }

  /** The tokens of several values, one after the other, or the first
      error among them. */
  function EncodeAll(vs: seq<Value>): (r: Result<seq<string>>)
    ensures r.Err? <==> AnyHasMap(vs)
    ensures r.Err? ==> r.error == UnsupportedType
    decreases vs, 0
  {
    if vs == [] then Ok([])
    else
      match Encode(vs[0])
      case Err(e) => Err(e)
      case Ok(first) =>
        match EncodeAll(vs[1..])
        case Err(e) => Err(e)
        case Ok(rest) => Ok(first + rest)
  }

  /** Encoding a list of values one by one and concatenating is encoding
      the concatenated list. */
  lemma {:induction false} EncodeAllAppend(a: seq<Value>, b: seq<Value>)
    ensures EncodeAll(a + b) ==
      (match EncodeAll(a)
       case Err(e) => Err(e)
       case Ok(x) =>
         match EncodeAll(b)
         case Err(e) => Err(e)
         case Ok(y) => Ok(x + y))
    decreases a
  {
    if a == [] {
      assert a + b == b;
      if EncodeAll(b).Ok? {
        assert [] + EncodeAll(b).value == EncodeAll(b).value;
      }
    } else {
      assert (a + b)[0] == a[0];
      assert (a + b)[1..] == a[1..] + b;
      EncodeAllAppend(a[1..], b);
      if Encode(a[0]).Ok? && EncodeAll(a[1..]).Ok? && EncodeAll(b).Ok? {
        var first, x, y := Encode(a[0]).value, EncodeAll(a[1..]).value, EncodeAll(b).value;
        assert first + (x + y) == (first + x) + y;
      }
    }
  }

  /** Encoding a single value as a list of one. */
  lemma EncodeAllOne(v: Value)
    ensures EncodeAll([v]) == Encode(v)
  {
    assert [v][1..] == [];
    if Encode(v).Ok? {
      assert Encode(v).value + [] == Encode(v).value;
    }
  }

  /** How many tokens a value stands for: one per scalar and per unit
      variant, none for `None` and unit, what the inner value stands for
      under `Some`, one for a whole sequence, the fields' counts summed for
      a tuple or struct, and one for a variant's name plus its payload's. */
  function Width(v: Value): nat
    decreases v, 1
  {
    match v
    case VUnit => 0
    case VNone => 0
    case VSome(x) => Width(x)
    case VSeq(_) => 1
    case VTuple(fields) => WidthAll(fields)
    case VVariant(_, payload) => 1 + Width(payload)
    case _ => 1
  }

  function WidthAll(vs: seq<Value>): nat
    decreases vs, 0
  {
    if vs == [] then 0 else Width(vs[0]) + WidthAll(vs[1..])
  }

  /** The encoder gives as many tokens as the value stands for. */
  lemma {:induction false} EncodeWidth(v: Value)
    ensures Encode(v).Ok? ==> |Encode(v).value| == Width(v)
    decreases v, 1
  {
    match v
    case VSome(x) => EncodeWidth(x);
    case VTuple(fields) => EncodeAllWidth(fields);
    case VVariant(_, payload) => EncodeWidth(payload);
    case _ =>
  }

  lemma {:induction false} EncodeAllWidth(vs: seq<Value>)
    ensures EncodeAll(vs).Ok? ==> |EncodeAll(vs).value| == WidthAll(vs)
    decreases vs, 0
  {
    if vs != [] {
      EncodeWidth(vs[0]);
      EncodeAllWidth(vs[1..]);
    }
  }

  /** `Serializer::to_message`: the first token is the command, the rest
      are the parameters, and there is no source; no token at all is Eof. */
  function ToMessage(args: seq<string>): (r: Result<Message>)
    ensures r.Err? <==> args == []
    ensures r.Err? ==> r.error == Eof
    ensures r.Ok? ==> r.value.source == None && [r.value.command] + r.value.parameters == args
  {
    if args == [] then Err(Eof) else Ok(Message(None, args[0], args[1..]))
  }

  class Serializer {
    var args: seq<string>

    /** `Serializer::default()`. */
    constructor ()
      ensures args == []
    {
      args := [];
    }

    /** `Serializer::new(value)`: a fresh serializer holding the tokens of `v`. */
    static method New(v: Value) returns (r: Result<Serializer>)
      ensures r.Ok? <==> Encode(v).Ok?
      ensures r.Err? ==> r.error == Encode(v).error
      ensures r.Ok? ==> fresh(r.value) && r.value.args == Encode(v).value
    {
      var ser := new Serializer();
      var e := ser.Serialize(v);
      if e.Err? {
        return Err(e.error);
      }
      return Ok(ser);
    }

    /** `Serializer::argument(value)`: append the tokens of one more value
        to those already there. */
    method Argument(v: Value) returns (r: Result<()>)
      modifies this
      ensures r.Ok? <==> Encode(v).Ok?
      ensures r.Ok? ==> args == old(args) + Encode(v).value
      ensures r.Err? ==> r.error == Encode(v).error && old(args) <= args
    {
      r := Serialize(v);
    }

    /** `value.serialize(&mut self)`: append the tokens of `v`. Tokens
        already present are never changed, even when encoding fails. */
    method Serialize(v: Value) returns (r: Result<()>)
      modifies this
      decreases v, 1
      ensures r.Ok? <==> Encode(v).Ok?
      ensures r.Ok? ==> args == old(args) + Encode(v).value
      ensures r.Err? ==> r.error == Encode(v).error && old(args) <= args
    {
      match v
      case VStr(s) =>
        args := args + [s];
        r := Ok(());
      case VNat(n) =>
        args := args + [FormatNat(n)];
        r := Ok(());
      case VBool(b) =>
        args := args + [FormatBool(b)];
        r := Ok(());
      case VChar(c) =>
        args := args + [FormatChar(c)];
        r := Ok(());
      case VUnit =>
        r := Ok(());
      case VNone =>
        r := Ok(());
      case VSome(x) =>
        r := Serialize(x);
      case VSeq(items) =>
        r := SerializeSeq(items);
      case VTuple(fields) =>
        r := SerializeFields(fields);
      case VVariant(name, payload) =>
        args := args + [name];
        r := Serialize(payload);
      case VMap(_) =>
        r := Err(UnsupportedType);
    }

    /** `serialize_seq` and its `Sequence`: each element is encoded into a
        fresh serializer, their tokens are gathered in order, and `end`
        appends them joined by commas as one token. */
    method SerializeSeq(items: seq<Value>) returns (r: Result<()>)
      modifies this
      decreases items, 0
      ensures r.Ok? <==> Encode(VSeq(items)).Ok?
      ensures r.Ok? ==> args == old(args) + Encode(VSeq(items)).value
      ensures r.Err? ==> r.error == Encode(VSeq(items)).error && old(args) <= args
    {
      var pieces: seq<string> := [];
      var i := 0;
      while i < |items|
        invariant 0 <= i <= |items|
        invariant EncodeAll(items[..i]) == Ok(pieces)
        invariant args == old(args)
      {
        var element := new Serializer();
        var e := element.Serialize(items[i]);
        EncodeAllAppend(items[..i], [items[i]]);
        EncodeAllOne(items[i]);
        assert items[..i + 1] == items[..i] + [items[i]];
        if e.Err? {
          EncodeAllAppend(items[..i + 1], items[i + 1..]);
          assert items[..i + 1] + items[i + 1..] == items;
          return Err(e.error);
        }
        assert element.args == Encode(items[i]).value;
        pieces := pieces + element.args;
        i := i + 1;
      }
      assert items[..i] == items;
      args := args + [Join(pieces, ',')];
      r := Ok(());
    }

    /** `serialize_tuple`, `serialize_struct` and the tuple and struct
        variants after their name: each field's tokens in declaration order. */
    method SerializeFields(fields: seq<Value>) returns (r: Result<()>)
      modifies this
      decreases fields, 0
      ensures r.Ok? <==> EncodeAll(fields).Ok?
      ensures r.Ok? ==> args == old(args) + EncodeAll(fields).value
      ensures r.Err? ==> r.error == EncodeAll(fields).error && old(args) <= args
    {
      var i := 0;
      while i < |fields|
        invariant 0 <= i <= |fields|
        invariant EncodeAll(fields[..i]).Ok?
        invariant args == old(args) + EncodeAll(fields[..i]).value
      {
        ghost var before := args;
        var e := Serialize(fields[i]);
        EncodeAllAppend(fields[..i], [fields[i]]);
        EncodeAllOne(fields[i]);
        assert fields[..i + 1] == fields[..i] + [fields[i]];
        if e.Err? {
          EncodeAllAppend(fields[..i + 1], fields[i + 1..]);
          assert fields[..i + 1] + fields[i + 1..] == fields;
          return Err(e.error);
        }
        i := i + 1;
      }
      assert fields[..i] == fields;
      r := Ok(());
    }
  }
}
