/** What the codec does with values outside the ones that round-trip.
    Tokens carry no field boundaries and no types, so the decoder can
    only guess where an absent `Option` was, stops a sequence at an empty
    piece, and reads a sequence element of several tokens from the
    parameters after the sequence's own token. */
module Quirks {
  import opened Errors
  import opened Text
  import opened Values
  import opened Ser
  import opened De
  import opened RoundTrip

  const TwoOptionals: Shape := Tuple([Str, Opt(Str), Opt(Str)])

  /** Reading a token does not depend on how many fields are outstanding. */
  lemma TakeFields(c: Cursor, n: nat)
    ensures Take(c.(fields := n)) == (Take(c).0, Take(c).1.(fields := n))
  {
  }

  /** The second of two optional fields alone present and the first alone
      present encode to the same tokens. */
  lemma OptionalsSameTokens(x: string, y: string)
    ensures Encode(VTuple([VStr(x), VSome(VStr(y)), VNone])) == Ok([x, y])
    ensures Encode(VTuple([VStr(x), VNone, VSome(VStr(y))])) == Ok([x, y])
  {
    EarlyTokens(x, y);
    LateTokens(x, y);
  }

  lemma EarlyTokens(x: string, y: string)
    ensures EncodeAll([VStr(x), VSome(VStr(y)), VNone]) == Ok([x, y])
  {
    var vs := [VStr(x), VSome(VStr(y)), VNone];
    EncodeAllOne(VNone);
    assert vs[1..] == [VSome(VStr(y)), VNone] && vs[1..][1..] == [VNone];
    assert Encode(VSome(VStr(y))) == Ok([y]);
    assert EncodeAll(vs[1..]) == Ok([y] + []);
    assert [x] + ([y] + []) == [x, y];
  }

  lemma LateTokens(x: string, y: string)
    ensures EncodeAll([VStr(x), VNone, VSome(VStr(y))]) == Ok([x, y])
  {
    var vs := [VStr(x), VNone, VSome(VStr(y))];
    EncodeAllOne(VSome(VStr(y)));
    assert vs[1..][1..] == [VSome(VStr(y))];
    assert EncodeAll(vs[1..]) == Ok([] + [y]);
    assert [x] + ([] + [y]) == [x, y];
  }

  /** So the decoder, which fills optional fields from the first on,
      gives the first of them back present and the second absent. */
  lemma OptionalsSwap(x: string, y: string, c: Cursor)
    requires Pending(c) == [x, y] && c.fields == 0
    ensures DecodeValue(TwoOptionals, c).0 == Ok(VTuple([VStr(x), VNone, VSome(VStr(y))]))
  {
    OptionalsRow(x, y, c.(fields := 3));
  }

  lemma OptionalsRow(x: string, y: string, c0: Cursor)
    requires Pending(c0) == [x, y] && c0.fields == 3
    ensures DecodeFields([Str, Opt(Str), Opt(Str)], c0).0 == Ok([VStr(x), VNone, VSome(VStr(y))])
  {
    assert Token(Str, VStr(x)) == x;
    SingleField(Str, VStr(x), c0, [y]);
    var c1 := DecodeField(Str, c0).1;
    OptionalsTail(y, c1);
    assert [Str, Opt(Str), Opt(Str)][1..] == [Opt(Str), Opt(Str)];
    assert DecodeFields([Str, Opt(Str), Opt(Str)], c0).0 ==
      Prepend([VStr(x)], DecodeFields([Opt(Str), Opt(Str)], c1)).0;
    assert [VStr(x)] + [VNone, VSome(VStr(y))] == [VStr(x), VNone, VSome(VStr(y))];
  }

  /** The two optional fields of `TwoOptionals` with one token left. */
  lemma OptionalsTail(y: string, c1: Cursor)
    requires Pending(c1) == [y] && c1.fields == 2
    ensures DecodeFields([Opt(Str), Opt(Str)], c1).0 == Ok([VNone, VSome(VStr(y))])
  {
    AbsentField(Opt(Str), c1);
    var c2 := c1.(fields := 1);
    assert Token(Str, VStr(y)) == y;
    PresentField(Opt(Str), VStr(y), c2, []);
    var c3 := DecodeField(Opt(Str), c2).1;
    assert [Opt(Str)][1..] == [];
    assert DecodeFields([Opt(Str)], c2) == Prepend([VSome(VStr(y))], (Ok([]), c3));
    assert [Opt(Str), Opt(Str)][1..] == [Opt(Str)];
    assert DecodeFields([Opt(Str), Opt(Str)], c1) == Prepend([VNone], DecodeFields([Opt(Str)], c2));
    assert [VSome(VStr(y))] + [] == [VSome(VStr(y))];
    assert [VNone] + [VSome(VStr(y))] == [VNone, VSome(VStr(y))];
  }

  /** A token that is the comma-join of pieces with a final empty piece
      decodes to the values of the pieces before it. */
  lemma {:induction false} DecodeTrailingEmpty(elem: Shape, xs: seq<string>, vs: seq<Value>, c: Cursor)
    requires IsScalar(elem) && Pieces(elem, xs, vs)
    requires Take(c).0 == Ok(Join(xs + [""], ','))
    ensures DecodeItems(elem, c) == (Ok(vs), Take(c).1)
    decreases |xs|
  {
    if xs == [] {
      assert Join([""], ',') == "";
    } else {
      var ys := xs + [""];
      var rest := Join(xs[1..] + [""], ',');
      assert ys[1..] == xs[1..] + [""];
      assert forall i :: 0 <= i < |ys| ==> ',' !in ys[i] by {
        assert forall i :: 0 <= i < |xs| ==> ys[i] == xs[i];
      }
      SplitOnceJoin(ys, ',');
      assert Join(ys, ',') == ys[0] + [','] + rest;
      ScalarItem(elem, c, xs[0], rest, vs[0]);
      var c3 := Take(c).1.(head := Some(rest));
      assert Pieces(elem, xs[1..], vs[1..]) by {
        forall i | 0 <= i < |xs| - 1
          ensures ',' !in xs[1..][i] && ParseScalar(elem, xs[1..][i]) == Ok(vs[1..][i])
        {
          assert xs[1..][i] == xs[i + 1];
        }
      }
      DecodeTrailingEmpty(elem, xs[1..], vs[1..], c3);
      assert [vs[0]] + vs[1..] == vs;
    }
  }

  /** A list of texts whose last is empty loses that last one: its token
      ends in a comma, and the empty piece after it reads as the end. */
  lemma EmptyLastDropped(xs: seq<string>, c: Cursor)
    requires forall i :: 0 <= i < |xs| ==> ',' !in xs[i]
    requires Take(c).0 == Ok(Join(xs + [""], ','))
    ensures Encode(VSeq(Strs(xs + [""]))) == Ok([Join(xs + [""], ',')])
    ensures DecodeValue(Seq(Str), c) == (Ok(VSeq(Strs(xs))), Take(c).1)
  {
    var items := Strs(xs + [""]);
    assert forall i :: 0 <= i < |items| ==> AtomOf(Str, items[i]);
    assert AtomTokens(Str, items) == xs + [""];
    assert Pieces(Str, xs, Strs(xs));
    DecodeTrailingEmpty(Str, xs, Strs(xs), c);
  }

  const Pairs: Shape := Seq(Tuple([Str, Str]))

  /** A sequence of pairs encodes each pair as two pieces of its one token. */
  lemma PairTokens(a: string, b: string)
    ensures Encode(VSeq([VTuple([VStr(a), VStr(b)])])) == Ok([a + [','] + b])
  {
    EncodeAllOne(VStr(b));
    assert [VStr(a), VStr(b)][1..] == [VStr(b)];
    assert [a] + [b] == [a, b];
    assert EncodeAll([VStr(a), VStr(b)]) == Ok([a, b]);
    EncodeAllOne(VTuple([VStr(a), VStr(b)]));
    assert Join([a, b], ',') == a + [','] + Join([b], ',');
  }

  /** Decoding a pair out of such a token reads its first field from the
      piece and its second from the next parameter of the message. */
  lemma PairStealsParameter(a: string, b: string, x: string, c: Cursor)
    requires ',' !in a
    requires Take(c).0 == Ok(a + [','] + b)
    requires Take(Take(c).1).0 == Ok(x)
    ensures DecodeItem(Tuple([Str, Str]), c).0 == Ok(Some(VTuple([VStr(a), VStr(x)])))
  {
    SplitOnceAt(a, ',', b);
    PairFromHead(a, x, Take(c).1);
  }

  /** A pair decoded with `a` put back as the head and `x` next. */
  lemma PairFromHead(a: string, x: string, c1: Cursor)
    requires c1.head == None && Take(c1).0 == Ok(x)
    ensures DecodeValue(Tuple([Str, Str]), c1.(head := Some(a))).0 == Ok(VTuple([VStr(a), VStr(x)]))
  {
    var e := c1.(head := Some(a), fields := c1.fields + 2);
    assert Take(e) == (Ok(a), e.(head := None));
    var e2 := DecodeField(Str, e).1;
    assert e2 == c1.(fields := c1.fields + 1);
    TakeFields(c1, c1.fields + 1);
    assert DecodeField(Str, e2).0 == Ok(VStr(x));
    assert [Str][1..] == [] && [Str, Str][1..] == [Str];
    assert [VStr(x)] + [] == [VStr(x)] && [VStr(a)] + [VStr(x)] == [VStr(a), VStr(x)];
    assert DecodeFields([Str], e2).0 == Ok([VStr(x)]);
    assert DecodeFields([Str, Str], e).0 == Ok([VStr(a), VStr(x)]);
  }

  /** As the last parameter, a sequence of pairs does not decode: the
      second field of its first pair finds no token left. */
  lemma PairsAtEnd(a: string, b: string, c: Cursor)
    requires ',' !in a
    requires Take(c).0 == Ok(a + [','] + b)
    requires Available(Take(c).1) == 0
    ensures DecodeValue(Pairs, c).0 == Err(Eof)
  {
    var c1 := Take(c).1;
    SplitOnceAt(a, ',', b);
    var d := c1.(head := Some(a));
    var e := d.(fields := d.fields + 2);
    assert Take(e) == (Ok(a), e.(head := None));
    var e2 := DecodeField(Str, e).1;
    assert Available(e2) == 0;
    assert DecodeFields([Str, Str], e).0 == Err(Eof);
  }
}
