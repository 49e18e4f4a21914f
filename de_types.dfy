/*
 * What the deserializer is asked for and what it produces. The source lets
 * serde's `Deserialize` implementations drive it through `Visitor`s; here a
 * `Shape` names the target type (and so the sequence of `deserialize_*`
 * calls its derived implementation makes) and a `Value` is the result.
 */
module Shapes {
  import opened Base
  import opened Coerce

  /** A named struct field and its type. */
  datatype Field = Field(name: string, shape: Shape)

  /** The payload an enum variant carries. */
  datatype VariantKind =
    | UnitKind
    | NewtypeKind(inner: Shape)
    | TupleKind(elems: seq<Shape>)
    | StructKind(fields: seq<Field>)

  datatype Variant = Variant(name: string, kind: VariantKind)

  /**
   * Target types: `bool`, the eight integer widths, `f64`, `char`, `String`,
   * `()` and unit structs, `Option<T>`, newtype structs, `Vec<T>`, tuples
   * and tuple structs, `HashMap<K, V>`, structs with named fields, enums,
   * the identifiers of fields and variants, and anything at all
   * (`deserialize_any` / `deserialize_ignored_any`).
   */
  datatype Shape =
    | BoolShape
    | IntShape(width: IntWidth)
    | FloatShape
    | CharShape
    | StrShape
    | UnitShape
    | OptionShape(inner: Shape)
    | NewtypeShape(inner: Shape)
    | SeqShape(elem: Shape)
    | TupleShape(elems: seq<Shape>)
    | MapShape(key: Shape, value: Shape)
    | StructShape(fields: seq<Field>)
    | EnumShape(variants: seq<Variant>)
    | IdentifierShape
    | AnyShape

  datatype Entry = Entry(key: Value, val: Value)

  /** The values the visitors build. */
  datatype Value =
    | VBool(b: bool)
    | VInt(i: int)
    | VFloat(x: real)
    | VChar(c: char)
    | VStr(s: string)
    | VUnit
    | VNone
    | VSome(some: Value)
    | VNewtype(inner: Value)
    | VSeq(items: seq<Value>)
    | VMap(entries: seq<Entry>)
    | VStruct(fieldValues: seq<Value>)
    | VVariant(name: string, payload: Value)

  // ---- Size of a shape: the first component of the deserializer's termination measure ----

  function Size(s: Shape): nat
    decreases s, 1
  {
    match s
    case OptionShape(inner) => 1 + Size(inner)
    case NewtypeShape(inner) => 1 + Size(inner)
    case SeqShape(e) => 1 + Size(e)
    case TupleShape(es) => 1 + ShapesSize(es)
    case MapShape(k, v) => 1 + Size(k) + Size(v)
    case StructShape(fs) => 1 + FieldsSize(fs)
    case EnumShape(vs) => 1 + VariantsSize(vs)
    case _ => 1
  }

  function ShapesSize(es: seq<Shape>): nat
    decreases es, 0
  {
    if es == [] then 0 else Size(es[0]) + ShapesSize(es[1..])
  }

  function FieldsSize(fs: seq<Field>): nat
    decreases fs, 0
  {
    if fs == [] then 0 else Size(fs[0].shape) + FieldsSize(fs[1..])
  }

  function KindSize(k: VariantKind): nat
    decreases k, 0
  {
    match k
    case UnitKind => 0
    case NewtypeKind(inner) => Size(inner)
    case TupleKind(es) => 1 + ShapesSize(es)
    case StructKind(fs) => 1 + FieldsSize(fs)
  }

  function VariantsSize(vs: seq<Variant>): nat
    decreases vs, 0
  {
    if vs == [] then 0 else KindSize(vs[0].kind) + VariantsSize(vs[1..])
  }

  lemma {:induction false} ShapeSizeBound(es: seq<Shape>, i: nat)
    requires i < |es|
    ensures Size(es[i]) <= ShapesSize(es)
    decreases i
  {
    if i > 0 {
      ShapeSizeBound(es[1..], i - 1);
    }
  }

  lemma {:induction false} FieldSizeBound(fs: seq<Field>, i: nat)
    requires i < |fs|
    ensures Size(fs[i].shape) <= FieldsSize(fs)
    decreases i
  {
    if i > 0 {
      FieldSizeBound(fs[1..], i - 1);
    }
  }

  lemma {:induction false} KindSizeBound(vs: seq<Variant>, i: nat)
    requires i < |vs|
    ensures KindSize(vs[i].kind) <= VariantsSize(vs)
    decreases i
  {
    if i > 0 {
      KindSizeBound(vs[1..], i - 1);
    }
  }

  // ---- Which values a shape admits ----

  /** `v` is a value of the type `s` describes. */
  ghost predicate Conforms(v: Value, s: Shape)
    decreases v, 0
  {
    match s
    case BoolShape => v.VBool?
    case IntShape(w) => v.VInt? && MinOf(w) <= v.i <= MaxOf(w)
    case FloatShape => v.VFloat?
    case CharShape => v.VChar?
    case StrShape => v.VStr?
    case UnitShape => v.VUnit?
    case OptionShape(inner) => v.VNone? || (v.VSome? && Conforms(v.some, inner))
    case NewtypeShape(inner) => v.VNewtype? && Conforms(v.inner, inner)
    case SeqShape(e) => v.VSeq? && forall i :: 0 <= i < |v.items| ==> Conforms(v.items[i], e)
    case TupleShape(es) =>
      v.VSeq? && |v.items| == |es| && forall i :: 0 <= i < |es| ==> Conforms(v.items[i], es[i])
    case MapShape(k, val) =>
      v.VMap? && forall i :: 0 <= i < |v.entries| ==>
        Conforms(v.entries[i].key, k) && Conforms(v.entries[i].val, val)
    case StructShape(fs) =>
      v.VStruct? && |v.fieldValues| == |fs| &&
      forall i :: 0 <= i < |fs| ==> Conforms(v.fieldValues[i], fs[i].shape)
    case EnumShape(vs) =>
      v.VVariant? &&
      (match IndexOf(Names(vs, VariantName), v.name)
       case None => false
       case Some(j) => ConformsKind(v.payload, vs[j].kind))
    case IdentifierShape => v.VStr?
    case AnyShape =>
      match v
      case VBool(_) => true
      case VFloat(_) => true
      case VStr(_) => true
      case VSeq(items) => forall i :: 0 <= i < |items| ==> Conforms(items[i], AnyShape)
      case VMap(entries) => forall i :: 0 <= i < |entries| ==>
        Conforms(entries[i].key, AnyShape) && Conforms(entries[i].val, AnyShape)
      case _ => false
  }

  /** `p` is a payload of a variant of kind `k`. */
  ghost predicate ConformsKind(p: Value, k: VariantKind)
    decreases p, 1
  {
    match k
    case UnitKind => p == VUnit
    case NewtypeKind(inner) => Conforms(p, inner)
    case TupleKind(es) => Conforms(p, TupleShape(es))
    case StructKind(fs) => Conforms(p, StructShape(fs))
  }

  /**
   * The index of the first occurrence of `name`, as a derived field or
   * variant visitor matches a name against the declared ones.
   */
  function IndexOf(names: seq<string>, name: string): (r: Option<nat>)
    ensures r.Some? ==> r.value < |names| && names[r.value] == name
    ensures r.Some? ==> forall j :: 0 <= j < r.value ==> names[j] != name
    ensures r.None? ==> forall j :: 0 <= j < |names| ==> names[j] != name
  {
    if names == [] then None
    else if names[0] == name then Some(0)
    else match IndexOf(names[1..], name)
      case None => None
      case Some(k) => Some(k + 1)
  }

  function FieldName(f: Field): string { f.name }

  function VariantName(v: Variant): string { v.name }

  /** The names of fields or variants, in declaration order, as `IndexOf` searches them. */
  function Names<T>(xs: seq<T>, name: T -> string): (r: seq<string>)
    ensures |r| == |xs| && forall j :: 0 <= j < |xs| ==> r[j] == name(xs[j])
  {
    seq(|xs|, j requires 0 <= j < |xs| => name(xs[j]))
  }

  /**
   * The end of a derived struct visitor: every field read keeps its value,
   * a missing `Option` field becomes `None`, and any other missing field is
   * an error.
   */
  function FinishStruct(fs: seq<Field>, vals: seq<Option<Value>>): (r: Result<seq<Value>>)
    requires |vals| == |fs|
    ensures r.Ok? ==> |r.value| == |fs|
    ensures r.Ok? ==> forall i :: 0 <= i < |fs| ==>
      if vals[i].Some? then r.value[i] == vals[i].value
      else fs[i].shape.OptionShape? && r.value[i] == VNone
    ensures r.Err? ==> r.error == MissingField
    ensures r.Err? <==> exists i :: 0 <= i < |fs| && vals[i].None? && !fs[i].shape.OptionShape?
  {
    if fs == [] then Ok([])
    else
      var head: Result<Value> :=
        if vals[0].Some? then Ok(vals[0].value)
        else if fs[0].shape.OptionShape? then Ok(VNone)
        else Err(MissingField);
      match head
      case Err(e) => Err(e)
      case Ok(v) =>
        match FinishStruct(fs[1..], vals[1..])
        case Err(e) =>
          assert forall i :: 1 <= i < |fs| ==> vals[1..][i - 1] == vals[i] && fs[1..][i - 1] == fs[i];
          Err(e)
        case Ok(rest) =>
          assert forall i :: 1 <= i < |fs| ==> vals[1..][i - 1] == vals[i] && fs[1..][i - 1] == fs[i];
          Ok([v] + rest)
  }

  /** Every field read so far holds a value of its field's type. */
  ghost predicate FieldsConform(fs: seq<Field>, vals: seq<Option<Value>>) {
    |vals| == |fs| &&
    forall i :: 0 <= i < |fs| && vals[i].Some? ==> Conforms(vals[i].value, fs[i].shape)
  }

  /** Settling the missing fields yields a value of the struct's type. */
  lemma FinishConforms(fs: seq<Field>, vals: seq<Option<Value>>)
    requires FieldsConform(fs, vals)
    ensures FinishStruct(fs, vals).Ok? ==> Conforms(VStruct(FinishStruct(fs, vals).value), StructShape(fs))
  {
    var r := FinishStruct(fs, vals);
    if r.Ok? {
      forall i | 0 <= i < |fs|
        ensures Conforms(r.value[i], fs[i].shape)
      {
        if vals[i].None? {
          assert r.value[i] == VNone;
        }
      }
    }
  }

  /** What serde's `char` visitor makes of a string: its only character, or an error. */
  function CharOf(s: string): (r: Result<Value>)
    ensures r.Ok? <==> |s| == 1
    ensures r.Ok? ==> r.value == VChar(s[0])
    ensures r.Err? ==> r.error == InvalidValue
  {
    if |s| == 1 then Ok(VChar(s[0])) else Err(InvalidValue)
  }

  /** Element shape of a sequence target; anything holds anything. */
  function ElemOf(s: Shape): (e: Shape)
    requires s.SeqShape? || s.AnyShape?
    ensures Size(e) <= Size(s)
  {
    if s.SeqShape? then s.elem else AnyShape
  }

  /** Key shape of a map target. */
  function KeyOf(s: Shape): (k: Shape)
    requires s.MapShape? || s.AnyShape?
    ensures Size(k) <= Size(s)
  {
    if s.MapShape? then s.key else AnyShape
  }

  /** Value shape of a map target. */
  function ValueOf(s: Shape): (v: Shape)
    requires s.MapShape? || s.AnyShape?
    ensures Size(v) <= Size(s)
  {
    if s.MapShape? then s.value else AnyShape
  }
}
