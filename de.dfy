/*
 * The pull deserializer of src/de.rs: a cursor `input` over the remaining
 * text and a nesting counter `depth`. Depth 0 is the implicit root
 * dictionary, written without braces; every explicit `[..]` or `{..}`
 * raises the depth while its contents are read.
 *
 * serde's `Deserialize` implementations are replaced by a `Shape` naming
 * the target type, so each `deserialize_*` entry point becomes a method
 * and the loops of serde's derived visitors (`Vec`, tuples, `HashMap`,
 * structs, enums) become the `Visit*` methods, which pull elements and
 * keys through the `Access` methods `NextElement`, `NextKey` and
 * `NextValue`.
 */
module De {
  import opened Base
  import opened StringLit
  import opened Lexer
  import opened Coerce
  import opened Shapes

  /** `s` is what `parse_ws` leaves: empty, or starting with something it cannot skip. */
  predicate Skipped(s: string) {
    s == [] || (!IsIgnorable(s[0]) && StripComments(s).Failed?)
  }

  /** `s` does not start with a space, the one character a bare key can stop at at once. */
  predicate NotAtSpace(s: string) {
    s == [] || s[0] != ' '
  }

  /**
   * `rest` is what follows a `c` that stands in `full` after its opening
   * character, with the ignored run after the `c` skipped when `skip` holds.
   */
  predicate ClosedAt(full: string, c: char, rest: string, skip: bool) {
    exists j :: 0 < j < |full| && full[j] == c && rest == (if skip then AllIgnored(full[j + 1..]) else full[j + 1..])
  }

  /** `rest` is what follows a character other than `c` that was read where `c` was expected. */
  predicate MisclosedAt(full: string, c: char, rest: string) {
    exists j :: 0 < j < |full| && full[j] != c && rest == full[j + 1..]
  }

  /**
   * `rest` is what remains of `full` once some prefix has been read. It is
   * stated one character at a time so that the solver unfolds it only as
   * far as a proof needs; `SuffixBehind` and `BehindSuffix` relate it to
   * `IsSuffix`.
   */
  predicate Behind(rest: string, full: string) {
    |rest| <= |full| && Trails(rest, full)
  }

  predicate Trails(rest: string, full: string)
    decreases |full|
  {
    rest == full || (full != [] && Trails(rest, full[1..]))
  }

  lemma {:induction false} SuffixBehind(rest: string, full: string)
    requires IsSuffix(rest, full)
    ensures Behind(rest, full)
    decreases |full|
  {
    if |rest| < |full| {
      assert full[1..][|full| - 1 - |rest|..] == full[|full| - |rest|..];
      SuffixBehind(rest, full[1..]);
    }
  }

  lemma {:induction false} TrailsSuffix(rest: string, full: string)
    requires Trails(rest, full)
    ensures IsSuffix(rest, full)
    decreases |full|
  {
    if rest != full {
      TrailsSuffix(rest, full[1..]);
      assert full[1..][|full| - 1 - |rest|..] == full[|full| - |rest|..];
    }
  }

  lemma BehindSuffix(rest: string, full: string)
    requires Behind(rest, full)
    ensures IsSuffix(rest, full)
  {
    TrailsSuffix(rest, full);
  }

  lemma BehindTrans(a: string, b: string, c: string)
    requires Behind(a, b) && Behind(b, c)
    ensures Behind(a, c)
  {
    BehindSuffix(a, b);
    BehindSuffix(b, c);
    SuffixTrans(a, b, c);
    SuffixBehind(a, c);
  }

  /**
   * A closing delimiter read at `rest`, which lies strictly inside `full`:
   * it is the character of `full` at that offset, and what follows it is
   * the rest of `full` after that offset.
   */
  lemma CloserAt(full: string, rest: string)
    requires Behind(rest, full) && rest != [] && |rest| < |full|
    ensures var j := |full| - |rest|;
      0 < j < |full| && full[j] == rest[0] && full[j + 1..] == rest[1..] && Behind(rest[1..], full)
  {
    BehindSuffix(rest, full);
    var j := |full| - |rest|;
    assert full[j..][0] == full[j];
    assert full[j..][1..] == full[j + 1..];
    SuffixBehind(rest[1..], full);
  }

  /** 1 at the implicit root, 0 inside a container: part of the termination measure. */
  function RootRank(depth: nat): nat {
    if depth == 0 then 1 else 0
  }

  /** The first characters `deserialize_any` dispatches on. */
  predicate StartsValue(c: char) {
    c == 't' || c == 'f' || IsDigit(c) || c == '-' || c == '"' || c == '\'' || c == '{' || c == '['
  }

  /** The kind of value `deserialize_any` produces after a leading `c`. */
  predicate LeadMatches(c: char, v: Value) {
    ((c == 't' || c == 'f') && v.VBool?)
    || ((IsDigit(c) || c == '-') && v.VFloat?)
    || (c == '"' && v.VStr?)
    || (c == '{' && v.VMap?)
    || (c == '[' && v.VSeq?)
  }

  /** Key targets read with `parse_key` (bare or quoted) rather than the main deserializer. */
  predicate IsTextKey(k: Shape) {
    k.StrShape? || k.IdentifierShape? || k.CharShape?
  }

  /**
   * An enum written as a quoted string: serde's string deserializer offers
   * only unit variants, so a unit variant of that name is the value, any
   * other variant of that name is a type error, and an unknown name is an
   * unknown variant.
   */
  function EnumFromName(vs: seq<Variant>, name: string): (r: Result<Value>)
    ensures r.Ok? <==> IndexOf(Names(vs, VariantName), name).Some? && vs[IndexOf(Names(vs, VariantName), name).value].kind.UnitKind?
    ensures r.Ok? ==> r.value == VVariant(name, VUnit) && Conforms(r.value, EnumShape(vs))
    ensures IndexOf(Names(vs, VariantName), name).None? ==> r == Err(UnknownVariant)
    ensures r.Err? && IndexOf(Names(vs, VariantName), name).Some? ==> r.error == InvalidType
  {
    match IndexOf(Names(vs, VariantName), name)
    case None => Err(UnknownVariant)
    case Some(j) => if vs[j].kind.UnitKind? then Ok(VVariant(name, VUnit)) else Err(InvalidType)
  }

  class Deserializer {
    var input: string
    var depth: nat

    /** `Deserializer::from_str`: the whole text, at the root. */
    constructor(text: string)
      ensures input == text && depth == 0
    {
      input := text;
      depth := 0;
    }

    // ---- Cursor primitives (src/de.rs:20-85) ----

    method Peek() returns (r: Result<char>)
      ensures input == [] ==> r == Err(Eof)
      ensures input != [] ==> r == Ok(input[0])
    {
      if input == [] {
        r := Err(Eof);
      } else {
        r := Ok(input[0]);
      }
    }

    method Take() returns (r: Result<char>)
      modifies this
      ensures depth == old(depth)
      ensures old(input) == [] ==> r == Err(Eof) && input == old(input)
      ensures old(input) != [] ==> r == Ok(old(input)[0]) && input == old(input)[1..]
      ensures Behind(input, old(input))
    {
      r := Peek();
      if r.Ok? {
        SuffixBehind(input[1..], input);
        input := input[1..];
      }
    }

    method ParseWs()
      modifies this
      ensures depth == old(depth)
      ensures input == AllIgnored(old(input))
      ensures Skipped(input) && Behind(input, old(input))
    {
      AllIgnoredSuffix(input);
      SuffixBehind(AllIgnored(input), input);
      input := AllIgnored(input);
    }

    method ParseUnit() returns (r: Result<()>)
      modifies this
      ensures depth == old(depth)
      ensures Unit(old(input)).Parsed? ==> r.Ok? && input == Unit(old(input)).rest
      ensures Unit(old(input)).Failed? ==> r == Err(ParseFailure) && input == old(input)
      ensures Behind(input, old(input))
    {
      match Unit(input)
      case Parsed(rest, _) =>
        ConcatSuffix("null", rest);
        SuffixBehind(rest, input);
        input := rest;
        r := Ok(());
      case Failed =>
        r := Err(ParseFailure);
    }

    method ParseBool() returns (r: Result<bool>)
      modifies this
      ensures depth == old(depth)
      ensures Bool(old(input)).Parsed? ==>
        r == Ok(Bool(old(input)).value) && input == Bool(old(input)).rest
      ensures Bool(old(input)).Failed? ==> r == Err(ParseFailure) && input == old(input)
      ensures Behind(input, old(input))
    {
      match Bool(input)
      case Parsed(rest, b) =>
        ConcatSuffix(if b then "true" else "false", rest);
        SuffixBehind(rest, input);
        input := rest;
        r := Ok(b);
      case Failed =>
        r := Err(ParseFailure);
    }

    method ParseNumber() returns (r: Result<real>)
      modifies this
      ensures depth == old(depth)
      ensures Number(old(input)).Parsed? ==>
        r == Ok(Number(old(input)).value) && input == Number(old(input)).rest
      ensures Number(old(input)).Failed? ==> r == Err(ParseFailure) && input == old(input)
      ensures Behind(input, old(input))
    {
      match Number(input)
      case Parsed(rest, x) =>
        NumberSuffix(input);
        SuffixBehind(rest, input);
        input := rest;
        r := Ok(x);
      case Failed =>
        r := Err(ParseFailure);
    }

    method ParseString() returns (r: Result<string>)
      modifies this
      ensures depth == old(depth)
      ensures StringLit.ParseString(old(input)).Parsed? ==>
        r == Ok(StringLit.ParseString(old(input)).value) && input == StringLit.ParseString(old(input)).rest
      ensures StringLit.ParseString(old(input)).Failed? ==> r == Err(ParseFailure) && input == old(input)
      ensures Behind(input, old(input))
    {
      match StringLit.ParseString(input)
      case Parsed(rest, s) =>
        ParseStringRest(input);
        SuffixBehind(rest, input);
        input := rest;
        r := Ok(s);
      case Failed =>
        r := Err(ParseFailure);
    }

    method ParseKey() returns (r: Result<string>)
      modifies this
      ensures depth == old(depth)
      ensures Key(old(input)).Parsed? ==> r == Ok(Key(old(input)).value) && input == Key(old(input)).rest
      ensures Key(old(input)).Failed? ==> r == Err(ParseFailure) && input == old(input)
      ensures Behind(input, old(input))
    {
      match Key(input)
      case Parsed(rest, s) =>
        KeySuffix(input);
        SuffixBehind(rest, input);
        input := rest;
        r := Ok(s);
      case Failed =>
        r := Err(ParseFailure);
    }

    // ---- Scalar targets (src/de.rs:118-216, 244-257, 381-386) ----

    method DeserializeBool() returns (r: Result<Value>)
      modifies this
      ensures depth == old(depth)
      ensures Behind(input, old(input))
      ensures Bool(old(input)).Parsed? ==>
        r == Ok(VBool(Bool(old(input)).value)) && input == Bool(old(input)).rest
      ensures Bool(old(input)).Failed? ==> r == Err(ParseFailure) && input == old(input)
      ensures r.Ok? ==> |input| < |old(input)|
    {
      var b := ParseBool();
      r := if b.Ok? then Ok(VBool(b.value)) else Err(b.error);
    }

    /**
     * `deserialize_i8` ... `deserialize_u64`: the number is read (and the
     * input advanced) before the width is checked.
     */
    method DeserializeInt(w: IntWidth) returns (r: Result<Value>)
      modifies this
      ensures depth == old(depth)
      ensures Behind(input, old(input))
      ensures Number(old(input)).Failed? ==> r == Err(ParseFailure) && input == old(input)
      ensures Number(old(input)).Parsed? ==> input == Number(old(input)).rest
      ensures Number(old(input)).Parsed? && CoerceInt(w, Number(old(input)).value).Ok? ==>
        r == Ok(VInt(CoerceInt(w, Number(old(input)).value).value))
      ensures Number(old(input)).Parsed? && CoerceInt(w, Number(old(input)).value).Err? ==>
        r == Err(OutOfRange)
      ensures r.Ok? ==> MinOf(w) <= r.value.i <= MaxOf(w) && |input| < |old(input)|
    {
      var x := ParseNumber();
      if x.Err? {
        r := Err(x.error);
      } else {
        var n := CoerceInt(w, x.value);
        r := if n.Ok? then Ok(VInt(n.value)) else Err(n.error);
      }
    }

    method DeserializeFloat() returns (r: Result<Value>)
      modifies this
      ensures depth == old(depth)
      ensures Behind(input, old(input))
      ensures Number(old(input)).Parsed? ==>
        r == Ok(VFloat(Number(old(input)).value)) && input == Number(old(input)).rest
      ensures Number(old(input)).Failed? ==> r == Err(ParseFailure) && input == old(input)
      ensures r.Ok? ==> |input| < |old(input)|
    {
      var x := ParseNumber();
      r := if x.Ok? then Ok(VFloat(x.value)) else Err(x.error);
    }

    method DeserializeStr() returns (r: Result<Value>)
      modifies this
      ensures depth == old(depth)
      ensures Behind(input, old(input))
      ensures StringLit.ParseString(old(input)).Parsed? ==>
        r == Ok(VStr(StringLit.ParseString(old(input)).value))
        && input == StringLit.ParseString(old(input)).rest
      ensures StringLit.ParseString(old(input)).Failed? ==> r == Err(ParseFailure) && input == old(input)
      ensures r.Ok? ==> |input| < |old(input)|
    {
      var s := ParseString();
      r := if s.Ok? then Ok(VStr(s.value)) else Err(s.error);
    }

    /** `deserialize_char` reads a string; only a one-character string is a `char`. */
    method DeserializeChar() returns (r: Result<Value>)
      modifies this
      ensures depth == old(depth)
      ensures Behind(input, old(input))
      ensures StringLit.ParseString(old(input)).Parsed? ==>
        r == CharOf(StringLit.ParseString(old(input)).value)
        && input == StringLit.ParseString(old(input)).rest
      ensures StringLit.ParseString(old(input)).Failed? ==> r == Err(ParseFailure) && input == old(input)
      ensures r.Ok? ==> |input| < |old(input)|
    {
      var s := ParseString();
      r := if s.Ok? then CharOf(s.value) else Err(s.error);
    }

    /** `deserialize_unit` and `deserialize_unit_struct`: the literal `null`. */
    method DeserializeUnit() returns (r: Result<Value>)
      modifies this
      ensures depth == old(depth)
      ensures Behind(input, old(input))
      ensures Unit(old(input)).Parsed? ==> r == Ok(VUnit) && input == Unit(old(input)).rest
      ensures Unit(old(input)).Failed? ==> r == Err(ParseFailure) && input == old(input)
      ensures r.Ok? ==> |input| < |old(input)|
    {
      var u := ParseUnit();
      r := if u.Ok? then Ok(VUnit) else Err(u.error);
    }

    /** `deserialize_identifier`: a key, bare or quoted. */
    method DeserializeIdentifier() returns (r: Result<Value>)
      modifies this
      ensures depth == old(depth)
      ensures Key(old(input)).Parsed? ==> r == Ok(VStr(Key(old(input)).value)) && input == Key(old(input)).rest
      ensures Key(old(input)).Failed? ==> r == Err(ParseFailure) && input == old(input)
      ensures Behind(input, old(input))
      ensures r.Ok? && NotAtSpace(old(input)) ==> |input| < |old(input)|
    {
      var k := ParseKey();
      r := if k.Ok? then Ok(VStr(k.value)) else Err(k.error);
    }

    // ---- The entry point and the containers (src/de.rs:104-393) ----

    /**
     * `T::deserialize(self)` for the type `s` describes. A successful read
     * yields a value of that type; it never gives back input nor lowers the
     * depth; inside a container it restores the depth and consumes at least
     * one character (unless it starts at a space, where a bare key may be
     * empty), which is what makes the element and key loops terminate.
     */
    method Deserialize(s: Shape) returns (r: Result<Value>)
      modifies this
      ensures Behind(input, old(input)) && depth >= old(depth)
      ensures r.Ok? ==> Conforms(r.value, s)
      ensures r.Ok? && old(depth) >= 1 ==> depth == old(depth)
      ensures r.Ok? && old(depth) >= 1 && NotAtSpace(old(input)) ==> |input| < old(|input|)
      ensures r.Err? ==> r.error != ExpectedDictEnd
      ensures s.BoolShape? ==>
        if Bool(old(input)).Parsed? then r == Ok(VBool(Bool(old(input)).value)) && input == Bool(old(input)).rest
        else r.Err?
      ensures s.StrShape? ==>
        if StringLit.ParseString(old(input)).Parsed? then
          r == Ok(VStr(StringLit.ParseString(old(input)).value)) && input == StringLit.ParseString(old(input)).rest
        else r.Err?
      decreases Size(s), |input|, RootRank(depth), 6
    {
      match s
      case BoolShape => r := DeserializeBool();
      case IntShape(w) => r := DeserializeInt(w);
      case FloatShape => r := DeserializeFloat();
      case CharShape => r := DeserializeChar();
      case StrShape => r := DeserializeStr();
      case UnitShape => r := DeserializeUnit();
      case OptionShape(_) => r := DeserializeOption(s);
      case NewtypeShape(inner) =>
        var v := Deserialize(inner);
        r := if v.Ok? then Ok(VNewtype(v.value)) else v;
      case SeqShape(_) => r := DeserializeSeq(s);
      case TupleShape(_) => r := DeserializeSeq(s);
      case MapShape(_, _) => r := DeserializeMap(s);
      case StructShape(_) => r := DeserializeMap(s);
      case EnumShape(_) => r := DeserializeEnum(s);
      case IdentifierShape => r := DeserializeIdentifier();
      case AnyShape => r := DeserializeAny();
    }

    /**
     * `deserialize_any` (and `deserialize_ignored_any`): the first character
     * picks the target. A single quote is dispatched to the string reader,
     * which only accepts a double quote.
     */
    method DeserializeAny() returns (r: Result<Value>)
      modifies this
      ensures Behind(input, old(input)) && depth >= old(depth)
      ensures r.Ok? ==> Conforms(r.value, AnyShape)
      ensures r.Ok? && old(depth) >= 1 ==> depth == old(depth)
      ensures r.Ok? && old(depth) >= 1 ==> |input| < old(|input|)
      ensures old(input) == [] ==> r == Err(Eof)
      ensures old(input) != [] && !StartsValue(old(input)[0]) ==> r == Err(Syntax) && input == old(input)
      ensures old(input) != [] && old(input)[0] == '\'' ==> r == Err(ParseFailure)
      ensures r.Ok? ==> old(input) != [] && LeadMatches(old(input)[0], r.value)
      ensures r.Err? ==> r.error != ExpectedDictEnd
      decreases 1, |input|, RootRank(depth), 5
    {
      var c := Peek();
      if c.Err? {
        r := Err(c.error);
      } else if c.value == 't' || c.value == 'f' {
        r := DeserializeBool();
      } else if IsDigit(c.value) || c.value == '-' {
        r := DeserializeFloat();
      } else if c.value == '"' || c.value == '\'' {
        r := DeserializeStr();
      } else if c.value == '{' {
        r := DeserializeMap(AnyShape);
      } else if c.value == '[' {
        r := DeserializeSeq(AnyShape);
      } else {
        r := Err(Syntax);
      }
    }

    /** `deserialize_option`: a leading `n` must be `null` and is `None`; anything else is `Some`. */
    method DeserializeOption(s: Shape) returns (r: Result<Value>)
      requires s.OptionShape?
      modifies this
      ensures Behind(input, old(input)) && depth >= old(depth)
      ensures r.Ok? ==> Conforms(r.value, s)
      ensures r.Ok? && old(depth) >= 1 ==> depth == old(depth)
      ensures r.Ok? && old(depth) >= 1 && NotAtSpace(old(input)) ==> |input| < old(|input|)
      ensures old(input) == [] ==> r == Err(Eof)
      ensures old(input) != [] && old(input)[0] == 'n' && Unit(old(input)).Parsed? ==>
        r == Ok(VNone) && input == Unit(old(input)).rest
      ensures old(input) != [] && old(input)[0] == 'n' && Unit(old(input)).Failed? ==>
        r == Err(ParseFailure)
      ensures r.Ok? && r.value.VSome? ==> old(input) != [] && old(input)[0] != 'n'
      ensures r.Err? ==> r.error != ExpectedDictEnd
      decreases Size(s), |input|, RootRank(depth), 4
    {
      var c := Peek();
      if c.Err? {
        r := Err(c.error);
      } else if c.value == 'n' {
        var u := ParseUnit();
        r := if u.Ok? then Ok(VNone) else Err(u.error);
      } else {
        var v := Deserialize(s.inner);
        r := if v.Ok? then Ok(VSome(v.value)) else v;
      }
    }

    /**
     * `deserialize_seq` (also tuples, tuple structs and byte buffers): `[`
     * and `]` are required at every depth; the depth is raised while the
     * elements are read and the ignored run after `]` is consumed.
     */
    method DeserializeSeq(s: Shape) returns (r: Result<Value>)
      requires s.SeqShape? || s.TupleShape? || s.AnyShape?
      modifies this
      ensures Behind(input, old(input)) && depth >= old(depth)
      ensures r.Ok? ==> Conforms(r.value, s)
      ensures old(input) == [] ==> r == Err(Eof)
      ensures old(input) != [] && old(input)[0] != '[' ==>
        r == Err(ExpectedArrayOpen) && input == old(input)[1..] && depth == old(depth)
      ensures r.Ok? ==> old(input) != [] && old(input)[0] == '[' && r.value.VSeq?
      ensures r.Ok? ==> depth == old(depth) && Skipped(input) && |input| < old(|input|)
      ensures r.Ok? ==> ClosedAt(old(input), ']', input, true)
      ensures r == Err(ExpectedArrayEnd) && depth == old(depth) ==>
        s.TupleShape? && MisclosedAt(old(input), ']', input)
      ensures r.Err? ==> r.error != ExpectedDictEnd
      decreases Size(s), |input|, RootRank(depth), 4
    {
      var c := Take();
      if c.Err? {
        r := Err(c.error);
        return;
      }
      if c.value != '[' {
        r := Err(ExpectedArrayOpen);
        return;
      }
      depth := depth + 1;
      ghost var inside := input;
      var v;
      if s.TupleShape? {
        v := VisitTuple(s);
      } else {
        v := VisitSeq(s);
      }
      BehindTrans(input, inside, old(input));
      if v.Err? {
        r := v;
        return;
      }
      depth := depth - 1;
      ghost var closer := input;
      var e := Take();
      if e == Ok(']') {
        CloserAt(old(input), closer);
        ParseWs();
        BehindTrans(input, closer[1..], old(input));
        r := v;
      } else {
        if e.Ok? {
          CloserAt(old(input), closer);
        }
        r := if e.Err? then Err(Eof) else Err(ExpectedArrayEnd);
      }
    }

    /**
     * `deserialize_map` and `deserialize_struct`. At the root (depth 0) the
     * entries are read without braces; inside a container `{` and `}` are
     * required and the ignored run after `}` is consumed.
     */
    method DeserializeMap(s: Shape) returns (r: Result<Value>)
      requires s.MapShape? || s.StructShape? || s.AnyShape?
      modifies this
      ensures Behind(input, old(input)) && depth >= old(depth)
      ensures r.Ok? ==> Conforms(r.value, s)
      ensures old(depth) >= 1 && old(input) == [] ==> r == Err(Eof)
      ensures old(depth) >= 1 && old(input) != [] && old(input)[0] != '{' ==>
        r == Err(ExpectedDictOpen) && input == old(input)[1..] && depth == old(depth)
      ensures r.Ok? ==> r.value.VMap? || r.value.VStruct?
      ensures r.Ok? && old(depth) >= 1 ==> old(input) != [] && old(input)[0] == '{'
      ensures r.Ok? ==> depth == old(depth)
      ensures r.Ok? && old(depth) >= 1 ==> Skipped(input) && |input| < old(|input|)
      ensures r.Ok? && old(depth) >= 1 ==>
        ClosedAt(old(input), '}', input, true)
      ensures old(depth) == 0 && s.MapShape? && IsTextKey(s.key) && Key(AllIgnored(old(input))).Failed? ==>
        r == Ok(VMap([])) && input == AllIgnored(old(input))
      ensures (old(depth) == 0 && s.MapShape? && (s.key.StrShape? || s.key.IdentifierShape?)
        && Key(AllIgnored(old(input))).Parsed? && r.Ok?) ==>
        r.value.VMap? && r.value.entries != [] && r.value.entries[0].key == VStr(Key(AllIgnored(old(input))).value)
      ensures r.Err? ==> r.error != ExpectedDictEnd
      decreases Size(s), |input|, RootRank(depth), 4
    {
      if depth < 1 {
        depth := depth + 1;
        r := VisitDict(s);
        if r.Ok? {
          depth := depth - 1;
        }
        return;
      }
      var c := Take();
      if c.Err? {
        r := Err(c.error);
        return;
      }
      if c.value != '{' {
        r := Err(ExpectedDictOpen);
        return;
      }
      depth := depth + 1;
      ghost var inside := input;
      var v := VisitDict(s);
      BehindTrans(input, inside, old(input));
      if v.Err? {
        r := v;
        return;
      }
      depth := depth - 1;
      ghost var closer := input;
      var e := Take();
      if e == Ok('}') {
        CloserAt(old(input), closer);
        ParseWs();
        BehindTrans(input, closer[1..], old(input));
        r := v;
      } else {
        r := if e.Err? then Err(Eof) else Err(ExpectedDictEnd);
      }
    }

    /**
     * `deserialize_enum`. A quoted string names a unit variant. Otherwise
     * the variant is `name payload`, bare at the root and between `{` and
     * `}` inside a container; unlike maps, nothing is skipped after `}`.
     */
    method DeserializeEnum(s: Shape) returns (r: Result<Value>)
      requires s.EnumShape?
      modifies this
      ensures Behind(input, old(input)) && depth >= old(depth)
      ensures r.Ok? ==> Conforms(r.value, s)
      ensures r.Ok? ==> depth == old(depth)
      ensures old(input) == [] ==> r == Err(Eof)
      ensures old(input) != [] && old(input)[0] == '"' ==> depth == old(depth)
      ensures old(input) != [] && old(input)[0] == '"' && StringLit.ParseString(old(input)).Failed? ==>
        r == Err(ParseFailure)
      ensures old(input) != [] && old(input)[0] == '"' && StringLit.ParseString(old(input)).Parsed? ==>
        input == StringLit.ParseString(old(input)).rest
        && r == EnumFromName(s.variants, StringLit.ParseString(old(input)).value)
      ensures old(depth) >= 1 && old(input) != [] && old(input)[0] != '"' && old(input)[0] != '{' ==>
        r == Err(ExpectedEnumOpen) && input == old(input)[1..]
      ensures r.Ok? && old(depth) >= 1 ==> old(input) != [] && (old(input)[0] == '"' || old(input)[0] == '{')
      ensures r.Ok? && old(depth) >= 1 ==> |input| < old(|input|)
      ensures r.Ok? && old(depth) >= 1 && old(input) != [] && old(input)[0] != '"' ==>
        ClosedAt(old(input), '}', input, false)
      ensures r == Err(ExpectedEnumEnd) && depth == old(depth) ==>
        old(depth) >= 1 && old(input) != [] && old(input)[0] == '{'
        && MisclosedAt(old(input), '}', input)
      ensures old(depth) == 0 && old(input) != [] && old(input)[0] != '"' && Key(AllIgnored(old(input))).Failed? ==>
        r == Err(ParseFailure)
      ensures old(depth) == 0 && old(input) != [] && old(input)[0] != '"' && r.Ok? ==>
        r.value.VVariant? && Key(AllIgnored(old(input))).Parsed?
        && r.value.name == Key(AllIgnored(old(input))).value
      ensures r.Err? ==> r.error != ExpectedDictEnd
      decreases Size(s), |input|, RootRank(depth), 4
    {
      var c := Peek();
      if c.Err? {
        r := Err(c.error);
        return;
      }
      if c.value == '"' {
        var name := ParseString();
        r := if name.Ok? then EnumFromName(s.variants, name.value) else Err(name.error);
        return;
      }
      if depth < 1 {
        depth := depth + 1;
        r := VisitEnum(s);
        if r.Ok? {
          depth := depth - 1;
        }
        return;
      }
      var open := Take();
      if open.value != '{' {
        r := Err(ExpectedEnumOpen);
        return;
      }
      depth := depth + 1;
      ghost var inside := input;
      var v := VisitEnum(s);
      BehindTrans(input, inside, old(input));
      if v.Err? {
        r := v;
        return;
      }
      depth := depth - 1;
      ghost var closer := input;
      var e := Take();
      if e.Ok? {
        CloserAt(old(input), closer);
      }
      if e == Ok('}') {
        r := v;
      } else {
        r := if e.Err? then Err(Eof) else Err(ExpectedEnumEnd);
      }
    }

    // ---- The key deserializer (src/de.rs:406-626) ----

    /**
     * Keys: string, identifier and char targets read a key, bare or quoted;
     * every other target is forwarded to the main deserializer.
     */
    method KeyDeserialize(k: Shape) returns (r: Result<Value>)
      modifies this
      ensures Behind(input, old(input)) && depth >= old(depth)
      ensures r.Ok? ==> Conforms(r.value, k)
      ensures r.Ok? && old(depth) >= 1 ==> depth == old(depth)
      ensures r.Ok? && old(depth) >= 1 && NotAtSpace(old(input)) ==> |input| < old(|input|)
      ensures IsTextKey(k) ==> depth == old(depth)
      ensures IsTextKey(k) && Key(old(input)).Failed? ==> r == Err(ParseFailure) && input == old(input)
      ensures IsTextKey(k) && Key(old(input)).Parsed? ==> input == Key(old(input)).rest
      ensures (k.StrShape? || k.IdentifierShape?) && Key(old(input)).Parsed? ==>
        r == Ok(VStr(Key(old(input)).value))
      ensures k.CharShape? && Key(old(input)).Parsed? ==> r == CharOf(Key(old(input)).value)
      ensures r.Err? ==> r.error != ExpectedDictEnd
      decreases Size(k), |input|, RootRank(depth), 7
    {
      if k.StrShape? || k.IdentifierShape? {
        var s := ParseKey();
        r := if s.Ok? then Ok(VStr(s.value)) else Err(s.error);
      } else if k.CharShape? {
        var s := ParseKey();
        r := if s.Ok? then CharOf(s.value) else Err(s.error);
      } else {
        r := Deserialize(k);
      }
    }

    // ---- Access: elements, keys and values (src/de.rs:641-694) ----

    /**
     * `next_element_seed`: after the ignored run, `]` ends the sequence;
     * otherwise an element is read and the ignored run after it skipped.
     */
    method NextElement(e: Shape) returns (r: Result<Option<Value>>)
      requires depth >= 1
      modifies this
      ensures Behind(input, old(input)) && depth >= old(depth)
      ensures r.Ok? ==> depth == old(depth)
      ensures AllIgnored(old(input)) == [] ==> r == Err(Eof)
      ensures r == Ok(None) <==> AllIgnored(old(input)) != [] && AllIgnored(old(input))[0] == ']'
      ensures r == Ok(None) ==> input == AllIgnored(old(input))
      ensures r.Ok? && r.value.Some? ==>
        Conforms(r.value.value, e) && Skipped(input) && |input| < old(|input|)
      ensures r.Err? ==> r.error != ExpectedDictEnd
      decreases Size(e), |input|, RootRank(depth), 8
    {
      ParseWs();
      var c := Peek();
      if c.Err? {
        r := Err(c.error);
        return;
      }
      if c.value == ']' {
        r := Ok(None);
        return;
      }
      ghost var elem := input;
      var v := Deserialize(e);
      BehindTrans(input, elem, old(input));
      if v.Err? {
        r := Err(v.error);
        return;
      }
      ghost var after := input;
      ParseWs();
      BehindTrans(input, after, old(input));
      r := Ok(Some(v.value));
    }

    /**
     * `next_key_seed`. Inside explicit braces (depth > 1) `}` ends the keys.
     * At the root a key that fails to read ends the keys instead of failing,
     * decided on the depth after the attempt: a failed text key leaves the
     * depth alone, so at the root it always ends the keys.
     */
    method NextKey(k: Shape) returns (r: Result<Option<Value>>)
      requires depth >= 1
      modifies this
      ensures Behind(input, old(input)) && depth >= old(depth)
      ensures old(depth) >= 2 && AllIgnored(old(input)) == [] ==> r == Err(Eof)
      ensures old(depth) >= 2 && AllIgnored(old(input)) != [] && AllIgnored(old(input))[0] == '}' ==>
        r == Ok(None) && input == AllIgnored(old(input)) && depth == old(depth)
      ensures old(depth) >= 2 && r == Ok(None) ==> input != [] && input[0] == '}' && depth == old(depth)
      ensures r.Ok? ==> depth == old(depth)
      ensures old(depth) < 2 && IsTextKey(k) ==> r.Ok?
      ensures old(depth) < 2 && r == Ok(None) ==> Skipped(input)
      // At the root a failed key of any shape ends the keys unless it left the depth raised.
      ensures old(depth) < 2 && r.Err? ==> depth >= 2
      ensures old(depth) < 2 && IsTextKey(k) && Key(AllIgnored(old(input))).Failed? ==>
        r == Ok(None) && input == AllIgnored(old(input))
      ensures old(depth) < 2 && (k.StrShape? || k.IdentifierShape?) && Key(AllIgnored(old(input))).Parsed? ==>
        r == Ok(Some(VStr(Key(AllIgnored(old(input))).value)))
      ensures r.Ok? && r.value.Some? ==>
        Conforms(r.value.value, k) && Skipped(input) && |input| < old(|input|) && depth == old(depth)
      ensures r.Err? ==> r.error != ExpectedDictEnd
      decreases Size(k), |input|, RootRank(depth), 8
    {
      ParseWs();
      if depth > 1 {
        var c := Peek();
        if c.Err? {
          r := Err(c.error);
          return;
        }
        if c.value == '}' {
          r := Ok(None);
          return;
        }
      }
      ghost var key := input;
      var v := KeyDeserialize(k);
      BehindTrans(input, key, old(input));
      ghost var after := input;
      if v.Ok? {
        ParseWs();
        BehindTrans(input, after, old(input));
        r := Ok(Some(v.value));
      } else if depth < 2 {
        AllIgnoredIdempotent(old(input));
        ParseWs();
        BehindTrans(input, after, old(input));
        r := Ok(None);
      } else {
        r := Err(v.error);
      }
    }

    /** `next_value_seed`: skip the ignored run, read the value, skip the run after it. */
    method NextValue(v: Shape) returns (r: Result<Value>)
      requires depth >= 1
      modifies this
      ensures Behind(input, old(input)) && depth >= old(depth)
      ensures r.Ok? ==> Conforms(r.value, v) && Skipped(input) && depth == old(depth)
      ensures r.Err? ==> r.error != ExpectedDictEnd
      decreases Size(v), |input|, RootRank(depth), 8
    {
      ParseWs();
      ghost var start := input;
      r := Deserialize(v);
      BehindTrans(input, start, old(input));
      if r.Ok? {
        ghost var after := input;
        ParseWs();
        BehindTrans(input, after, old(input));
      }
    }

    // ---- serde's derived visitors ----

    /** The `Vec` visitor: elements until `NextElement` reports the end. */
    method VisitSeq(s: Shape) returns (r: Result<Value>)
      requires s.SeqShape? || s.AnyShape?
      requires depth >= 1
      modifies this
      ensures Behind(input, old(input)) && depth >= old(depth)
      ensures r.Ok? ==> Conforms(r.value, s) && depth == old(depth)
      ensures r.Ok? ==> input != [] && input[0] == ']' && r.value.VSeq?
      ensures r.Err? ==> r.error != ExpectedDictEnd
      decreases Size(s), |input|, RootRank(depth), 9
    {
      var items: seq<Value> := [];
      while true
        invariant depth == old(depth)
        invariant Behind(input, old(input))
        invariant forall i :: 0 <= i < |items| ==> Conforms(items[i], ElemOf(s))
        decreases |input|
      {
        ghost var before := input;
        var n := NextElement(ElemOf(s));
        BehindTrans(input, before, old(input));
        if n.Err? {
          r := Err(n.error);
          return;
        }
        if n.value.None? {
          r := Ok(VSeq(items));
          return;
        }
        items := items + [n.value.value];
      }
    }

    /** The tuple visitor: exactly as many elements as the tuple has, or an invalid length. */
    method VisitTuple(s: Shape) returns (r: Result<Value>)
      requires s.TupleShape?
      requires depth >= 1
      modifies this
      ensures Behind(input, old(input)) && depth >= old(depth)
      ensures r.Ok? ==> Conforms(r.value, s) && depth == old(depth)
      ensures |s.elems| == 0 ==> r == Ok(VSeq([])) && input == old(input)
      ensures |s.elems| > 0 && AllIgnored(old(input)) != [] && AllIgnored(old(input))[0] == ']' ==>
        r == Err(InvalidLength) && input == AllIgnored(old(input))
      ensures |s.elems| > 0 && r.Ok? ==> Skipped(input)
      ensures r.Err? ==> r.error != ExpectedDictEnd
      decreases Size(s), |input|, RootRank(depth), 9
    {
      var items: seq<Value> := [];
      var i := 0;
      while i < |s.elems|
        invariant 0 <= i <= |s.elems| && |items| == i
        invariant depth == old(depth)
        invariant Behind(input, old(input))
        invariant i == 0 ==> input == old(input)
        invariant i > 0 ==> Skipped(input) && !(AllIgnored(old(input)) != [] && AllIgnored(old(input))[0] == ']')
        invariant forall j :: 0 <= j < i ==> Conforms(items[j], s.elems[j])
      {
        ShapeSizeBound(s.elems, i);
        ghost var elem := input;
        var n := NextElement(s.elems[i]);
        BehindTrans(input, elem, old(input));
        if n.Err? {
          r := Err(n.error);
          return;
        }
        if n.value.None? {
          r := Err(InvalidLength);
          return;
        }
        items := items + [n.value.value];
        i := i + 1;
      }
      r := Ok(VSeq(items));
    }

    /** The visitor behind `deserialize_map`: a struct's or a map's. */
    method VisitDict(s: Shape) returns (r: Result<Value>)
      requires s.MapShape? || s.StructShape? || s.AnyShape?
      requires depth >= 1
      modifies this
      ensures Behind(input, old(input)) && depth >= old(depth)
      ensures r.Ok? ==> Conforms(r.value, s) && (r.value.VMap? || r.value.VStruct?)
      ensures r.Ok? ==> depth == old(depth)
      ensures r.Ok? && old(depth) >= 2 ==> input != [] && input[0] == '}'
      ensures old(depth) == 1 && s.MapShape? && IsTextKey(s.key) && Key(AllIgnored(old(input))).Failed? ==>
        r == Ok(VMap([])) && input == AllIgnored(old(input))
      ensures (old(depth) == 1 && s.MapShape? && (s.key.StrShape? || s.key.IdentifierShape?)
        && Key(AllIgnored(old(input))).Parsed? && r.Ok?) ==>
        r.value.VMap? && r.value.entries != [] && r.value.entries[0].key == VStr(Key(AllIgnored(old(input))).value)
      ensures r.Err? ==> r.error != ExpectedDictEnd
      decreases Size(s), |input|, RootRank(depth), 11
    {
      if s.StructShape? {
        r := VisitStruct(s);
      } else {
        r := VisitMap(s);
      }
    }

    /**
     * serde's `next_entry`, which the `HashMap` visitor pulls: `NextKey`,
     * then, unless the keys have ended, `NextValue`.
     */
    method NextEntry(s: Shape) returns (r: Result<Option<Entry>>)
      requires s.MapShape? || s.AnyShape?
      requires depth >= 1
      modifies this
      ensures Behind(input, old(input)) && depth >= old(depth)
      ensures r.Ok? ==> depth == old(depth)
      ensures r.Ok? && r.value.Some? ==>
        Conforms(r.value.value.key, KeyOf(s)) && Conforms(r.value.value.val, ValueOf(s)) && |input| < |old(input)|
      ensures old(depth) >= 2 && r == Ok(None) ==> input != [] && input[0] == '}'
      ensures old(depth) == 1 && IsTextKey(KeyOf(s)) && Key(AllIgnored(old(input))).Failed? ==>
        r == Ok(None) && input == AllIgnored(old(input))
      ensures (old(depth) == 1 && (KeyOf(s).StrShape? || KeyOf(s).IdentifierShape?)
        && Key(AllIgnored(old(input))).Parsed? && r.Ok?) ==>
        r.value.Some? && r.value.value.key == VStr(Key(AllIgnored(old(input))).value)
      ensures r.Err? ==> r.error != ExpectedDictEnd
      decreases Size(s), |input|, RootRank(depth), 9
    {
      var k := NextKey(KeyOf(s));
      if k.Err? {
        r := Err(k.error);
        return;
      }
      if k.value.None? {
        r := Ok(None);
        return;
      }
      ghost var val := input;
      var v := NextValue(ValueOf(s));
      BehindTrans(input, val, old(input));
      r := if v.Ok? then Ok(Some(Entry(k.value.value, v.value))) else Err(v.error);
    }

    /** The `HashMap` visitor: entries, in order, until `NextEntry` reports the end. */
    method VisitMap(s: Shape) returns (r: Result<Value>)
      requires s.MapShape? || s.AnyShape?
      requires depth >= 1
      modifies this
      ensures Behind(input, old(input)) && depth >= old(depth)
      ensures r.Ok? ==> Conforms(r.value, s) && r.value.VMap?
      ensures r.Ok? ==> depth == old(depth)
      ensures r.Ok? && old(depth) >= 2 ==> input != [] && input[0] == '}'
      ensures old(depth) == 1 && IsTextKey(KeyOf(s)) && Key(AllIgnored(old(input))).Failed? ==>
        r == Ok(VMap([])) && input == AllIgnored(old(input))
      ensures (old(depth) == 1 && (KeyOf(s).StrShape? || KeyOf(s).IdentifierShape?)
        && Key(AllIgnored(old(input))).Parsed? && r.Ok?) ==>
        r.value.entries != [] && r.value.entries[0].key == VStr(Key(AllIgnored(old(input))).value)
      ensures r.Err? ==> r.error != ExpectedDictEnd
      decreases Size(s), |input|, RootRank(depth), 10
    {
      var entries: seq<Entry> := [];
      while true
        invariant depth == old(depth)
        invariant Behind(input, old(input))
        invariant entries == [] ==> input == old(input)
        invariant (entries != [] && depth == 1 && (KeyOf(s).StrShape? || KeyOf(s).IdentifierShape?)
          && Key(AllIgnored(old(input))).Parsed?) ==>
          entries[0].key == VStr(Key(AllIgnored(old(input))).value)
        invariant depth == 1 && IsTextKey(KeyOf(s)) && Key(AllIgnored(old(input))).Failed? ==> entries == []
        invariant forall i :: 0 <= i < |entries| ==>
          Conforms(entries[i].key, KeyOf(s)) && Conforms(entries[i].val, ValueOf(s))
        decreases |input|
      {
        ghost var at := input;
        var e := NextEntry(s);
        BehindTrans(input, at, old(input));
        if e.Err? {
          r := Err(e.error);
          return;
        }
        if e.value.None? {
          r := Ok(VMap(entries));
          return;
        }
        entries := entries + [e.value.value];
      }
    }

    /**
     * A derived struct visitor: keys name fields until `NextKey` reports the
     * end, then missing fields are settled by `FinishStruct`.
     */
    method VisitStruct(s: Shape) returns (r: Result<Value>)
      requires s.StructShape?
      requires depth >= 1
      modifies this
      ensures Behind(input, old(input)) && depth >= old(depth)
      ensures r.Ok? ==> Conforms(r.value, s)
      ensures r.Ok? ==> depth == old(depth)
      ensures r.Ok? && old(depth) >= 2 ==> input != [] && input[0] == '}'
      ensures r.Err? ==> r.error != ExpectedDictEnd
      decreases Size(s), |input|, RootRank(depth), 10
    {
      var vals: seq<Option<Value>> := seq(|s.fields|, _ => None);
      while true
        invariant depth == old(depth)
        invariant Behind(input, old(input))
        invariant FieldsConform(s.fields, vals)
        decreases |input|
      {
        ghost var before := input;
        var k := NextKey(IdentifierShape);
        BehindTrans(input, before, old(input));
        if k.Err? {
          r := Err(k.error);
          return;
        }
        if k.value.None? {
          var fin := FinishStruct(s.fields, vals);
          if fin.Ok? {
            FinishConforms(s.fields, vals);
            r := Ok(VStruct(fin.value));
          } else {
            r := Err(fin.error);
          }
          return;
        }
        ghost var key := input;
        var next := ReadField(s, vals, k.value.value.s);
        BehindTrans(input, key, old(input));
        if next.Err? {
          r := Err(next.error);
          return;
        }
        vals := next.value;
      }
    }

    /**
     * The value after the key `name` in a derived struct visitor: a known
     * field is read once (a second occurrence is a duplicate field), and the
     * value of an unknown key is read as anything and dropped.
     */
    method ReadField(s: Shape, vals: seq<Option<Value>>, name: string) returns (r: Result<seq<Option<Value>>>)
      requires s.StructShape? && FieldsConform(s.fields, vals)
      requires depth >= 1
      modifies this
      ensures Behind(input, old(input)) && depth >= old(depth)
      ensures r.Ok? ==> FieldsConform(s.fields, r.value) && depth == old(depth)
      ensures IndexOf(Names(s.fields, FieldName), name).Some? && vals[IndexOf(Names(s.fields, FieldName), name).value].Some? ==>
        r == Err(DuplicateField) && input == old(input)
      ensures r.Ok? && IndexOf(Names(s.fields, FieldName), name).Some? ==>
        var j := IndexOf(Names(s.fields, FieldName), name).value;
        r.value[j].Some? && r.value == vals[j := r.value[j]]
      ensures r.Ok? && IndexOf(Names(s.fields, FieldName), name).None? ==> r.value == vals
      ensures r.Err? ==> r.error != ExpectedDictEnd
      decreases Size(s), |input|, RootRank(depth), 9
    {
      match IndexOf(Names(s.fields, FieldName), name)
      case Some(j) =>
        if vals[j].Some? {
          r := Err(DuplicateField);
          return;
        }
        FieldSizeBound(s.fields, j);
        var v := NextValue(s.fields[j].shape);
        r := if v.Ok? then Ok(vals[j := Some(v.value)]) else Err(v.error);
      case None =>
        var v := NextValue(AnyShape);
        r := if v.Ok? then Ok(vals) else Err(v.error);
    }

    /**
     * A derived enum visitor over `Access` (`variant_seed`): the variant
     * name is a key, then `VariantPayload` reads what the variant carries.
     */
    method VisitEnum(s: Shape) returns (r: Result<Value>)
      requires s.EnumShape?
      requires depth >= 1
      modifies this
      ensures Behind(input, old(input)) && depth >= old(depth)
      ensures r.Ok? ==> Conforms(r.value, s) && depth == old(depth)
      ensures r.Ok? ==> r.value.VVariant? && IndexOf(Names(s.variants, VariantName), r.value.name).Some?
      ensures r.Ok? ==> !s.variants[IndexOf(Names(s.variants, VariantName), r.value.name).value].kind.UnitKind?
      ensures Key(AllIgnored(old(input))).Failed? ==> r == Err(ParseFailure)
      ensures r.Ok? ==> Key(AllIgnored(old(input))).Parsed? && r.value.name == Key(AllIgnored(old(input))).value
      ensures r.Err? ==> r.error != ExpectedDictEnd
      decreases Size(s), |input|, RootRank(depth), 10
    {
      ParseWs();
      ghost var named := input;
      var id := DeserializeIdentifier();
      BehindTrans(input, named, old(input));
      if id.Err? {
        r := id;
        return;
      }
      var name := id.value.s;
      match IndexOf(Names(s.variants, VariantName), name)
      case None =>
        r := Err(UnknownVariant);
      case Some(j) =>
        ghost var payload := input;
        var p := VariantPayload(s, j);
        BehindTrans(input, payload, old(input));
        r := if p.Ok? then Ok(VVariant(name, p.value)) else Err(p.error);
    }

    /**
     * `VariantAccess`: a unit variant is refused here (it must be written
     * as a quoted string); a newtype variant reads its value, a tuple
     * variant a sequence and a struct variant a map, after the ignored run.
     */
    method VariantPayload(s: Shape, j: nat) returns (r: Result<Value>)
      requires s.EnumShape? && j < |s.variants|
      requires depth >= 1
      modifies this
      ensures Behind(input, old(input)) && depth >= old(depth)
      ensures r.Ok? ==> ConformsKind(r.value, s.variants[j].kind) && depth == old(depth)
      ensures s.variants[j].kind.UnitKind? ==> r == Err(ExpectedString) && input == old(input)
      ensures r.Err? ==> r.error != ExpectedDictEnd
      decreases Size(s), |input|, RootRank(depth), 9
    {
      KindSizeBound(s.variants, j);
      match s.variants[j].kind
      case UnitKind =>
        r := Err(ExpectedString);
      case NewtypeKind(inner) =>
        ParseWs();
        ghost var start := input;
        r := Deserialize(inner);
        BehindTrans(input, start, old(input));
        if r.Ok? {
          ghost var after := input;
          ParseWs();
          BehindTrans(input, after, old(input));
        }
      case TupleKind(es) =>
        ParseWs();
        ghost var start := input;
        r := DeserializeSeq(TupleShape(es));
        BehindTrans(input, start, old(input));
      case StructKind(fs) =>
        ParseWs();
        ghost var start := input;
        r := DeserializeMap(StructShape(fs));
        BehindTrans(input, start, old(input));
    }
  }

  /**
   * `from_str`: deserialize from the root, then insist that nothing is left
   * (trailing whitespace included, since the root does not skip it).
   */
  method FromStr(s: Shape, text: string) returns (r: Result<Value>)
    ensures r.Ok? ==> Conforms(r.value, s)
    ensures r.Err? ==> r.error != ExpectedDictEnd
    // A scalar document is accepted exactly when nothing follows the scalar.
    ensures s.BoolShape? ==>
      (r.Ok? <==> Bool(text).Parsed? && Bool(text).rest == [])
      && (r.Ok? ==> r.value == VBool(Bool(text).value))
      && (Bool(text).Parsed? && Bool(text).rest != [] ==> r == Err(InputNotEmpty))
    ensures s.StrShape? ==>
      (r.Ok? <==> StringLit.ParseString(text).Parsed? && StringLit.ParseString(text).rest == [])
      && (r.Ok? ==> r.value == VStr(StringLit.ParseString(text).value))
      && (StringLit.ParseString(text).Parsed? && StringLit.ParseString(text).rest != [] ==> r == Err(InputNotEmpty))
  {
    var d := new Deserializer(text);
    r := d.Deserialize(s);
    if r.Ok? && d.input != [] {
      r := Err(InputNotEmpty);
    }
  }
}
