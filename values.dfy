/** The closed description of what the codec walks. The source leaves
    this to serde's derive macros and visitor traits; here a `Shape` says
    what the decoder is asked for and a `Value` is what the encoder is
    given.

    A struct, a tuple and a tuple struct are all a `Tuple` of field
    shapes. An enum variant's payload is a shape of its own: `Unit` for a
    unit variant, a `Tuple` for a tuple or struct variant, any shape for
    a newtype variant. A newtype struct is its inner shape. */
module Values {
  import opened Errors

  datatype Shape =
    | Str                       // &str, String, identifiers; for bytes only the
                                // decoding side (`deserialize_bytes` reads one token)
    | UInt(bits: nat)           // u8, u16, u32, u64
    | Bool
    | Char
    | Unit                      // (), unit structs
    | Opt(inner: Shape)         // Option<T>
    | Seq(elem: Shape)          // Vec<T> and other sequences
    | Tuple(fields: seq<Shape>) // tuples, tuple structs, structs
    | Enum(variants: seq<VariantShape>)
    | Map(key: Shape, val: Shape)
    | Any                       // deserialize_any, deserialize_ignored_any

  datatype VariantShape = VariantShape(name: string, payload: Shape)

  datatype Value =
    | VStr(s: string)
    | VNat(n: nat)
    | VBool(b: bool)
    | VChar(c: char)
    | VUnit
    | VNone
    | VSome(inner: Value)
    | VSeq(items: seq<Value>)
    | VTuple(fields: seq<Value>)
    | VVariant(name: string, payload: Value)
    | VMap(entries: seq<(Value, Value)>)

  /** The index of the first variant called `name`; this is the matching
      of a tag against the variant names that serde's derive generates. */
  function Lookup(variants: seq<VariantShape>, name: string): (r: Option<nat>)
    ensures r.Some? ==> r.value < |variants| && variants[r.value].name == name
    ensures r.Some? ==> forall j :: 0 <= j < r.value ==> variants[j].name != name
    ensures r.None? ==> forall j :: 0 <= j < |variants| ==> variants[j].name != name
  {
    if variants == [] then None
    else if variants[0].name == name then Some(0)
    else match Lookup(variants[1..], name)
      case None => None
      case Some(i) => Some(i + 1)
  }

  /** No two variants share a name, as serde's derive requires. */
  predicate DistinctNames(variants: seq<VariantShape>) {
    forall i, j :: 0 <= i < j < |variants| ==> variants[i].name != variants[j].name
  }

  /** With distinct names, a variant's name finds that variant. */
  lemma LookupIndex(variants: seq<VariantShape>, i: nat)
    requires DistinctNames(variants) && i < |variants|
    ensures Lookup(variants, variants[i].name) == Some(i)
  {
  }
}
