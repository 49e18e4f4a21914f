/**
 * The Tot serializer: a pluggable formatter that writes tokens, keys, list
 * and dict brackets and indentation, driven by one method per shape of the
 * value being written.
 *
 * The model splits the writer in two.  `Events(v)` is the sequence of
 * formatter calls that serializing `v` makes, and `Run` replays such a
 * sequence on a formatter state.  The `Serializer` class is the imperative
 * writer; each of its methods is proved, when it succeeds, to leave
 * exactly the state that replaying its events would leave.
 */
module Ser {
  import opened Base
  import opened StringLit
  import opened Lexer
  import opened Coerce

  // ---- What can be serialized ----

  /**
   * A value as the serialization data model presents it.  Every integer
   * width goes through `SInt`; a float carries the text the shortest
   * round-trip float printer gives for it.
   */
  datatype Data =
    | SBool(b: bool)
    | SInt(n: int)
    | SFloat(text: string)
    | SChar(c: char)
    | SStr(s: string)
    | SUnit
    | SNone
    | SSome(some: Data)
    | SUnitStruct
    | SUnitVariant(variant: string)
    | SNewtypeStruct(inner: Data)
    | SNewtypeVariant(variant: string, inner: Data)
    | SSeq(items: seq<Data>)
    | STupleVariant(variant: string, items: seq<Data>)
    | SMap(entries: seq<MapEntry>)
    | SStruct(fields: seq<FieldValue>)
    | SStructVariant(variant: string, fields: seq<FieldValue>)

  datatype MapEntry = MapEntry(key: Data, val: Data)
  datatype FieldValue = FieldValue(name: string, val: Data)

  /** The shapes the key serializer refuses with "explode!". */
  predicate IsCompound(k: Data) {
    k.SSeq? || k.STupleVariant? || k.SMap? || k.SStruct? || k.SStructVariant?
  }

  /** No map anywhere in `v` has a key the key serializer refuses. */
  predicate KeysOk(v: Data)
    decreases v, 1
  {
    match v
    case SSome(x) => KeysOk(x)
    case SNewtypeStruct(x) => KeysOk(x)
    case SNewtypeVariant(_, x) => KeysOk(x)
    case SSeq(items) => ItemsOk(items)
    case STupleVariant(_, items) => ItemsOk(items)
    case SMap(entries) => EntriesOk(entries)
    case SStruct(fields) => FieldsOk(fields)
    case SStructVariant(_, fields) => FieldsOk(fields)
    case _ => true
  }

  predicate ItemsOk(items: seq<Data>)
    decreases items, 0
  {
    items == [] || (ItemsOk(items[..|items| - 1]) && KeysOk(items[|items| - 1]))
  }

  /** Every key is accepted by the key serializer, and nothing inside a key or a value is refused. */
  predicate EntriesOk(entries: seq<MapEntry>)
    decreases entries, 0
  {
    if entries == [] then true
    else
      var n := |entries| - 1;
      assert entries[n] in entries && entries[n].key < entries[n];
      EntriesOk(entries[..n]) && EntryOk(entries[n])
  }

  predicate EntryOk(e: MapEntry)
    decreases e, 2
  {
    !IsCompound(e.key) && KeysOk(e.key) && KeysOk(e.val)
  }

  predicate FieldsOk(fields: seq<FieldValue>)
    decreases fields, 0
  {
    fields == [] || (FieldsOk(fields[..|fields| - 1]) && KeysOk(fields[|fields| - 1].val))
  }

  lemma ItemsOkSnoc(items: seq<Data>, i: nat)
    requires i < |items|
    ensures ItemsOk(items[..i + 1]) == (ItemsOk(items[..i]) && KeysOk(items[i]))
  {
    assert items[..i + 1][..i] == items[..i];
  }

  lemma EntriesOkSnoc(entries: seq<MapEntry>, i: nat)
    requires i < |entries|
    ensures EntriesOk(entries[..i + 1]) == (EntriesOk(entries[..i]) && EntryOk(entries[i]))
  {
    assert entries[..i + 1][..i] == entries[..i];
  }

  lemma FieldsOkSnoc(fields: seq<FieldValue>, i: nat)
    requires i < |fields|
    ensures FieldsOk(fields[..i + 1]) == (FieldsOk(fields[..i]) && KeysOk(fields[i].val))
  {
    assert fields[..i + 1][..i] == fields[..i];
  }

  /** A refused element makes every longer prefix refused. */
  lemma {:induction false} ItemsOkPrefix(items: seq<Data>, k: nat)
    requires k <= |items|
    ensures ItemsOk(items) ==> ItemsOk(items[..k])
    decreases |items|
  {
    if k < |items| {
      ItemsOkPrefix(items[..|items| - 1], k);
      assert items[..|items| - 1][..k] == items[..k];
    } else {
      assert items[..k] == items;
    }
  }

  lemma {:induction false} EntriesOkPrefix(entries: seq<MapEntry>, k: nat)
    requires k <= |entries|
    ensures EntriesOk(entries) ==> EntriesOk(entries[..k])
    decreases |entries|
  {
    if k < |entries| {
      EntriesOkPrefix(entries[..|entries| - 1], k);
      assert entries[..|entries| - 1][..k] == entries[..k];
    } else {
      assert entries[..k] == entries;
    }
  }

  lemma {:induction false} FieldsOkPrefix(fields: seq<FieldValue>, k: nat)
    requires k <= |fields|
    ensures FieldsOk(fields) ==> FieldsOk(fields[..k])
    decreases |fields|
  {
    if k < |fields| {
      FieldsOkPrefix(fields[..|fields| - 1], k);
      assert fields[..|fields| - 1][..k] == fields[..k];
    } else {
      assert fields[..k] == fields;
    }
  }

  // ---- Formatter calls and their effect ----

  /** One call on the formatter, as the serializer makes it. */
  datatype Event =
    | Token(text: string)
    | Key(name: string)
    | Newline
    | ListOpen
    | ListClose
    | DictOpen
    | DictClose

  /** What a formatter holds: the text written so far and its indent counter. */
  datatype Fmt = Fmt(out: string, indents: nat)

  /** One level of indentation. */
  const Tab: string := "    "

  /** `n` levels of indentation. */
  function Pad(n: nat): (p: string)
    ensures |p| == 4 * n
    ensures forall i :: 0 <= i < |p| ==> p[i] == ' '
  {
    if n == 0 then "" else Pad(n - 1) + Tab
  }

  /** The indent the formatter reports: the compact formatter always reports 0. */
  function Level(compact: bool, indents: nat): nat {
    if compact then 0 else indents
  }

  /** The counter after `indent`: the compact formatter ignores it. */
  function Up(compact: bool, indents: nat): nat {
    if compact then indents else indents + 1
  }

  /**
   * The counter after `unindent`.  The serializer never unindents a zero
   * counter (proved by the methods' preconditions), so the clamp is never used.
   */
  function Down(compact: bool, indents: nat): nat {
    if compact || indents == 0 then indents else indents - 1
  }

  /** The counter after one formatter call: only brackets move it. */
  function Next(compact: bool, indents: nat, e: Event): nat {
    match e
    case ListOpen => Up(compact, indents)
    case DictOpen => Up(compact, indents)
    case ListClose => Down(compact, indents)
    case DictClose => Down(compact, indents)
    case _ => indents
  }

  /**
   * The text one formatter call writes, given the counter before it.  A key
   * is padded to the current indent and followed by a space.  Opening a
   * list or dict writes its bracket only when nested (at indent 0 the root
   * container is bare), then a newline; closing it pads to the new indent
   * and writes the bracket, again only when nested.
   */
  function Text(compact: bool, indents: nat, e: Event): string {
    match e
    case Token(t) => t
    case Key(k) => Pad(Level(compact, indents)) + k + " "
    case Newline => "\n"
    case ListOpen => Opening(compact, indents, "[")
    case DictOpen => Opening(compact, indents, "{")
    case ListClose => Closing(compact, Down(compact, indents), "]")
    case DictClose => Closing(compact, Down(compact, indents), "}")
  }

  function Opening(compact: bool, indents: nat, bracket: string): string {
    (if Level(compact, indents) > 0 then bracket else "") + "\n"
  }

  function Closing(compact: bool, indents: nat, bracket: string): string {
    var lv := Level(compact, indents);
    if lv > 0 then Pad(lv) + bracket else ""
  }

  /** The effect of one formatter call on the formatter's state. */
  function Step(compact: bool, st: Fmt, e: Event): Fmt {
    Fmt(st.out + Text(compact, st.indents, e), Next(compact, st.indents, e))
  }

  /** The state after making the calls `es` in order. */
  function Run(compact: bool, st: Fmt, es: seq<Event>): Fmt
    decreases |es|
  {
    if es == [] then st
    else Step(compact, Run(compact, st, es[..|es| - 1]), es[|es| - 1])
  }

  /** The counter after making the calls `es` in order. */
  function Counter(compact: bool, indents: nat, es: seq<Event>): nat
    decreases |es|
  {
    if es == [] then indents
    else Next(compact, Counter(compact, indents, es[..|es| - 1]), es[|es| - 1])
  }

  /** The counter a run leaves depends on the counter alone, not on the text written. */
  lemma {:induction false} RunCounter(compact: bool, st: Fmt, es: seq<Event>)
    ensures Run(compact, st, es).indents == Counter(compact, st.indents, es)
    decreases |es|
  {
    if es != [] {
      RunCounter(compact, st, es[..|es| - 1]);
    }
  }

  lemma CounterSnoc(compact: bool, n: nat, es: seq<Event>, e: Event)
    ensures Counter(compact, n, es + [e]) == Next(compact, Counter(compact, n, es), e)
  {
    assert (es + [e])[..|es|] == es;
  }

  lemma {:induction false} CounterAppend(compact: bool, n: nat, a: seq<Event>, b: seq<Event>)
    ensures Counter(compact, n, a + b) == Counter(compact, Counter(compact, n, a), b)
    decreases |b|
  {
    if b == [] {
      assert a + b == a;
    } else {
      var b' := b[..|b| - 1];
      CounterAppend(compact, n, a, b');
      assert (a + b)[..|a + b| - 1] == a + b';
      assert (a + b)[|a + b| - 1] == b[|b| - 1];
    }
  }

  lemma RunSnoc(compact: bool, st: Fmt, es: seq<Event>, e: Event)
    ensures Run(compact, st, es + [e]) == Step(compact, Run(compact, st, es), e)
  {
    assert (es + [e])[..|es|] == es;
  }

  /** Replaying two runs of calls one after the other is replaying their concatenation. */
  lemma {:induction false} RunAppend(compact: bool, st: Fmt, a: seq<Event>, b: seq<Event>)
    ensures Run(compact, st, a + b) == Run(compact, Run(compact, st, a), b)
    decreases |b|
  {
    if b == [] {
      assert a + b == a;
    } else {
      var b' := b[..|b| - 1];
      RunAppend(compact, st, a, b');
      assert (a + b)[..|a + b| - 1] == a + b';
      assert (a + b)[|a + b| - 1] == b[|b| - 1];
    }
  }

  // ---- The calls each value makes ----

  function BoolText(b: bool): string {
    if b then "true" else "false"
  }

  /** 2^53: every integer of at most this magnitude converts to `f64` exactly. */
  const F64Exact: int := 0x20_0000_0000_0000

  /** An integer is written as the float it converts to; `IntText(n) + ".0"` is that text. */
  function NumberText(n: int): string {
    IntText(n) + ".0"
  }

  /** What `write_null` writes. */
  const NullText: string := "()"

  /** A string is written between quotes, its contents unescaped. */
  function StrEvents(s: string): seq<Event> {
    [Token("\""), Token(s), Token("\"")]
  }

  function Events(v: Data): seq<Event>
    decreases v, 1
  {
    match v
    case SBool(b) => [Token(BoolText(b))]
    case SInt(n) => [Token(NumberText(n))]
    case SFloat(t) => [Token(t)]
    case SChar(c) => StrEvents([c])
    case SStr(s) => StrEvents(s)
    case SUnit => [Token(NullText)]
    case SNone => [Token(NullText)]
    case SSome(x) => Events(x)
    case SUnitStruct => [Token(NullText)]
    case SUnitVariant(name) => StrEvents(name)
    case SNewtypeStruct(x) => Events(x)
    case SNewtypeVariant(name, x) => NewtypeVariantEvents(name, x)
    case SSeq(items) => SeqEvents(items)
    case STupleVariant(name, items) => TupleVariantEvents(name, items)
    case SMap(entries) => MapEvents(entries)
    case SStruct(fields) => StructEvents(fields)
    case SStructVariant(name, fields) => StructVariantEvents(name, fields)
  }

  /** A newtype variant is a one-key dict, followed by a newline. */
  function NewtypeVariantEvents(name: string, x: Data): seq<Event>
    decreases x, 2
  {
    VariantHead(name) + Events(x) + [DictClose, Newline]
  }

  /**
   * A tuple variant opens a dict and a list, then the sequence serializer
   * opens and closes a second list; only the dict is closed after that.
   */
  function TupleVariantEvents(name: string, items: seq<Data>): seq<Event>
    decreases items, 2
  {
    VariantHead(name) + [ListOpen] + SeqEvents(items) + [DictClose]
  }

  function MapEvents(entries: seq<MapEntry>): seq<Event>
    decreases entries, 1
  {
    [DictOpen] + EntriesEvents(entries) + [DictClose]
  }

  function StructEvents(fields: seq<FieldValue>): seq<Event>
    decreases fields, 1
  {
    [DictOpen] + FieldsEvents(fields) + [DictClose]
  }

  /**
   * A struct variant opens a dict, then the map serializer opens a second
   * one for the fields; only one dict is closed.
   */
  function StructVariantEvents(name: string, fields: seq<FieldValue>): seq<Event>
    decreases fields, 1
  {
    VariantHead(name) + [DictOpen] + VariantFieldsEvents(fields) + [DictClose]
  }

  /** Every variant with data opens a dict and writes its name as the key. */
  function VariantHead(name: string): seq<Event> {
    [DictOpen, Key(name)]
  }

  function SeqEvents(items: seq<Data>): seq<Event>
    decreases items, 1
  {
    [ListOpen] + ElemsEvents(items) + [ListClose]
  }

  /** Each element of a sequence is followed by a newline. */
  function ElemsEvents(items: seq<Data>): seq<Event>
    decreases items, 0
  {
    if items == [] then []
    else ElemsEvents(items[..|items| - 1]) + Events(items[|items| - 1]) + [Newline]
  }

  /** A string key is written as a key; any other accepted key as a plain value. */
  function KeyEvents(k: Data): seq<Event>
    decreases k, 2
  {
    if k.SStr? then [Key(k.s)] else Events(k)
  }

  function EntriesEvents(entries: seq<MapEntry>): seq<Event>
    decreases entries, 0
  {
    if entries == [] then []
    else
      var n := |entries| - 1;
      assert entries[n] in entries && entries[n].key < entries[n];
      EntriesEvents(entries[..n]) + KeyEvents(entries[n].key) + Events(entries[n].val) + [Newline]
  }

  function FieldsEvents(fields: seq<FieldValue>): seq<Event>
    decreases fields, 0
  {
    if fields == [] then []
    else
      var f := fields[|fields| - 1];
      FieldsEvents(fields[..|fields| - 1]) + [Key(f.name)] + Events(f.val) + [Newline]
  }

  /** Struct-variant fields are not followed by a newline. */
  function VariantFieldsEvents(fields: seq<FieldValue>): seq<Event>
    decreases fields, 0
  {
    if fields == [] then []
    else
      var f := fields[|fields| - 1];
      VariantFieldsEvents(fields[..|fields| - 1]) + [Key(f.name)] + Events(f.val)
  }

  /**
   * How far serializing `v` leaves the indent counter above where it
   * started: one level per tuple or struct variant inside `v`.
   */
  function Drift(v: Data): nat
    decreases v, 1
  {
    match v
    case SSome(x) => Drift(x)
    case SNewtypeStruct(x) => Drift(x)
    case SNewtypeVariant(_, x) => Drift(x)
    case SSeq(items) => ItemsDrift(items)
    case STupleVariant(_, items) => 1 + ItemsDrift(items)
    case SMap(entries) => EntriesDrift(entries)
    case SStruct(fields) => FieldsDrift(fields)
    case SStructVariant(_, fields) => 1 + FieldsDrift(fields)
    case _ => 0
  }

  function ItemsDrift(items: seq<Data>): nat
    decreases items, 0
  {
    if items == [] then 0
    else ItemsDrift(items[..|items| - 1]) + Drift(items[|items| - 1])
  }

  function EntriesDrift(entries: seq<MapEntry>): nat
    decreases entries, 0
  {
    if entries == [] then 0
    else
      var n := |entries| - 1;
      assert entries[n] in entries && entries[n].key < entries[n];
      EntriesDrift(entries[..n]) + Drift(entries[n].key) + Drift(entries[n].val)
  }

  function FieldsDrift(fields: seq<FieldValue>): nat
    decreases fields, 0
  {
    if fields == [] then 0
    else FieldsDrift(fields[..|fields| - 1]) + Drift(fields[|fields| - 1].val)
  }

  // ---- Growing the sequences one element at a time ----

  lemma ElemsSnoc(items: seq<Data>, i: nat)
    requires i < |items|
    ensures ElemsEvents(items[..i + 1]) == ElemsEvents(items[..i]) + (Events(items[i]) + [Newline])
    ensures ItemsDrift(items[..i + 1]) == ItemsDrift(items[..i]) + Drift(items[i])
  {
    assert items[..i + 1][..i] == items[..i];
  }

  lemma EntriesSnoc(entries: seq<MapEntry>, i: nat)
    requires i < |entries|
    ensures EntriesEvents(entries[..i + 1]) ==
      EntriesEvents(entries[..i]) + KeyEvents(entries[i].key) + (Events(entries[i].val) + [Newline])
    ensures EntriesDrift(entries[..i + 1]) ==
      EntriesDrift(entries[..i]) + Drift(entries[i].key) + Drift(entries[i].val)
  {
    assert entries[..i + 1][..i] == entries[..i];
  }

  lemma FieldsSnoc(fields: seq<FieldValue>, i: nat)
    requires i < |fields|
    ensures FieldsEvents(fields[..i + 1]) ==
      FieldsEvents(fields[..i]) + [Key(fields[i].name)] + (Events(fields[i].val) + [Newline])
    ensures FieldsDrift(fields[..i + 1]) == FieldsDrift(fields[..i]) + Drift(fields[i].val)
  {
    assert fields[..i + 1][..i] == fields[..i];
  }

  lemma VariantFieldsSnoc(fields: seq<FieldValue>, i: nat)
    requires i < |fields|
    ensures VariantFieldsEvents(fields[..i + 1]) ==
      VariantFieldsEvents(fields[..i]) + [Key(fields[i].name)] + Events(fields[i].val)
  {
    assert fields[..i + 1][..i] == fields[..i];
  }

  lemma ElemsStep(c: bool, s0: Fmt, items: seq<Data>, i: nat, s1: Fmt, s2: Fmt)
    requires i < |items|
    requires s1 == Run(c, s0, ElemsEvents(items[..i]))
    requires s2 == Run(c, s1, Events(items[i]) + [Newline])
    ensures s2 == Run(c, s0, ElemsEvents(items[..i + 1]))
  {
    ElemsSnoc(items, i);
    RunAppend(c, s0, ElemsEvents(items[..i]), Events(items[i]) + [Newline]);
  }

  lemma EntriesStep(c: bool, s0: Fmt, entries: seq<MapEntry>, i: nat, s1: Fmt, s2: Fmt, s3: Fmt)
    requires i < |entries|
    requires s1 == Run(c, s0, EntriesEvents(entries[..i]))
    requires s2 == Run(c, s1, KeyEvents(entries[i].key))
    requires s3 == Run(c, s2, Events(entries[i].val) + [Newline])
    ensures s3 == Run(c, s0, EntriesEvents(entries[..i + 1]))
  {
    EntriesSnoc(entries, i);
    RunAppend(c, s0, EntriesEvents(entries[..i]), KeyEvents(entries[i].key));
    RunAppend(c, s0, EntriesEvents(entries[..i]) + KeyEvents(entries[i].key), Events(entries[i].val) + [Newline]);
  }

  lemma FieldsStep(c: bool, s0: Fmt, fields: seq<FieldValue>, i: nat, s1: Fmt, s2: Fmt, s3: Fmt)
    requires i < |fields|
    requires s1 == Run(c, s0, FieldsEvents(fields[..i]))
    requires s2 == Step(c, s1, Key(fields[i].name))
    requires s3 == Run(c, s2, Events(fields[i].val) + [Newline])
    ensures s3 == Run(c, s0, FieldsEvents(fields[..i + 1]))
  {
    FieldsSnoc(fields, i);
    RunSnoc(c, s0, FieldsEvents(fields[..i]), Key(fields[i].name));
    RunAppend(c, s0, FieldsEvents(fields[..i]) + [Key(fields[i].name)], Events(fields[i].val) + [Newline]);
  }

  lemma VariantFieldsStep(c: bool, s0: Fmt, fields: seq<FieldValue>, i: nat, s1: Fmt, s2: Fmt, s3: Fmt)
    requires i < |fields|
    requires s1 == Run(c, s0, VariantFieldsEvents(fields[..i]))
    requires s2 == Step(c, s1, Key(fields[i].name))
    requires s3 == Run(c, s2, Events(fields[i].val))
    ensures s3 == Run(c, s0, VariantFieldsEvents(fields[..i + 1]))
  {
    VariantFieldsSnoc(fields, i);
    RunSnoc(c, s0, VariantFieldsEvents(fields[..i]), Key(fields[i].name));
    RunAppend(c, s0, VariantFieldsEvents(fields[..i]) + [Key(fields[i].name)], Events(fields[i].val));
  }

  /** How far the counter moves by `d`: the compact formatter never moves it. */
  function Shift(compact: bool, d: nat): nat {
    if compact then 0 else d
  }

  /** Calls that write text but never touch the indent counter. */
  predicate Flat(es: seq<Event>) {
    forall i :: 0 <= i < |es| ==> es[i].Token? || es[i].Key? || es[i].Newline?
  }

  lemma {:induction false} FlatKeepsCounter(c: bool, n: nat, es: seq<Event>)
    requires Flat(es)
    ensures Counter(c, n, es) == n
    decreases |es|
  {
    if es != [] {
      FlatKeepsCounter(c, n, es[..|es| - 1]);
    }
  }

  lemma CounterOne(c: bool, n: nat, e: Event)
    ensures Counter(c, n, [e]) == Next(c, n, e)
  {
    assert [e][..0] == [];
  }

  lemma CounterWrap(c: bool, n: nat, head: seq<Event>, body: seq<Event>, tail: seq<Event>)
    ensures Counter(c, n, head + body + tail) == Counter(c, Counter(c, Counter(c, n, head), body), tail)
  {
    CounterAppend(c, n, head + body, tail);
    CounterAppend(c, n, head, body);
  }

  lemma HeadCounter(c: bool, n: nat, name: string)
    ensures Counter(c, n, VariantHead(name)) == Up(c, n)
  {
    CounterOne(c, n, DictOpen);
    CounterSnoc(c, n, [DictOpen], Key(name));
  }

  /**
   * Serializing `v` moves the default formatter's indent counter up by
   * exactly `Drift(v)` and leaves the compact formatter's where it was.
   */
  lemma {:induction false} EventsCounter(c: bool, n: nat, v: Data)
    ensures Counter(c, n, Events(v)) == n + Shift(c, Drift(v))
    decreases v, 1
  {
    if IsScalar(v) {
      ScalarCounter(c, n, v);
    } else if v.SSome? || v.SNewtypeStruct? {
      var x := if v.SSome? then v.some else v.inner;
      assert Events(v) == Events(x) && Drift(v) == Drift(x);
      EventsCounter(c, n, x);
    } else {
      ContainerCounter(c, n, v);
    }
  }

  lemma {:induction false} ContainerCounter(c: bool, n: nat, v: Data)
    requires !IsScalar(v) && !v.SSome? && !v.SNewtypeStruct?
    ensures Counter(c, n, Events(v)) == n + Shift(c, Drift(v))
    decreases v, 0
  {
    var es := Events(v);
    match v
    case SNewtypeVariant(name, x) =>
      assert es == NewtypeVariantEvents(name, x);
      NewtypeVariantCounter(c, n, name, x);
    case SSeq(items) =>
      assert es == SeqEvents(items);
      SeqCounter(c, n, items);
    case STupleVariant(name, items) =>
      assert es == TupleVariantEvents(name, items);
      TupleVariantCounter(c, n, name, items);
    case SMap(entries) =>
      assert es == MapEvents(entries);
      MapCounter(c, n, entries);
    case SStruct(fields) =>
      assert es == StructEvents(fields);
      StructCounter(c, n, fields);
    case SStructVariant(name, fields) =>
      assert es == StructVariantEvents(name, fields);
      StructVariantCounter(c, n, name, fields);
  }

  lemma ScalarCounter(c: bool, n: nat, v: Data)
    requires IsScalar(v)
    ensures Counter(c, n, Events(v)) == n && Drift(v) == 0
  {
    if v.SChar? || v.SStr? || v.SUnitVariant? {
      var s := if v.SChar? then [v.c] else if v.SStr? then v.s else v.variant;
      assert Events(v) == StrEvents(s);
      assert Flat(StrEvents(s));
      FlatKeepsCounter(c, n, StrEvents(s));
    } else {
      assert Events(v) == [Token(ScalarText(v))];
      CounterOne(c, n, Token(ScalarText(v)));
    }
  }

  lemma {:induction false} NewtypeVariantCounter(c: bool, n: nat, name: string, x: Data)
    ensures Counter(c, n, NewtypeVariantEvents(name, x)) == n + Shift(c, Drift(x))
    decreases x, 2
  {
    var m := Up(c, n) + Shift(c, Drift(x));
    CounterWrap(c, n, VariantHead(name), Events(x), [DictClose, Newline]);
    HeadCounter(c, n, name);
    EventsCounter(c, Up(c, n), x);
    CounterOne(c, m, DictClose);
    CounterSnoc(c, m, [DictClose], Newline);
  }

  /** The list the sequence serializer opens inside a tuple variant stays open: the counter ends one level up. */
  lemma {:induction false} TupleVariantCounter(c: bool, n: nat, name: string, items: seq<Data>)
    ensures Counter(c, n, TupleVariantEvents(name, items)) == n + Shift(c, 1 + ItemsDrift(items))
    decreases items, 2
  {
    var m := Up(c, Up(c, n)) + Shift(c, ItemsDrift(items));
    CounterWrap(c, n, VariantHead(name) + [ListOpen], SeqEvents(items), [DictClose]);
    HeadCounter(c, n, name);
    CounterSnoc(c, n, VariantHead(name), ListOpen);
    SeqCounter(c, Up(c, Up(c, n)), items);
    CounterOne(c, m, DictClose);
  }

  lemma {:induction false} MapCounter(c: bool, n: nat, entries: seq<MapEntry>)
    ensures Counter(c, n, MapEvents(entries)) == n + Shift(c, EntriesDrift(entries))
    decreases entries, 1
  {
    var m := Up(c, n) + Shift(c, EntriesDrift(entries));
    CounterWrap(c, n, [DictOpen], EntriesEvents(entries), [DictClose]);
    CounterOne(c, n, DictOpen);
    EntriesCounter(c, Up(c, n), entries);
    CounterOne(c, m, DictClose);
  }

  lemma {:induction false} StructCounter(c: bool, n: nat, fields: seq<FieldValue>)
    ensures Counter(c, n, StructEvents(fields)) == n + Shift(c, FieldsDrift(fields))
    decreases fields, 1
  {
    var m := Up(c, n) + Shift(c, FieldsDrift(fields));
    CounterWrap(c, n, [DictOpen], FieldsEvents(fields), [DictClose]);
    CounterOne(c, n, DictOpen);
    FieldsCounter(c, Up(c, n), fields);
    CounterOne(c, m, DictClose);
  }

  /** The second dict a struct variant opens stays open: the counter ends one level up. */
  lemma {:induction false} StructVariantCounter(c: bool, n: nat, name: string, fields: seq<FieldValue>)
    ensures Counter(c, n, StructVariantEvents(name, fields)) == n + Shift(c, 1 + FieldsDrift(fields))
    decreases fields, 1
  {
    var m := Up(c, Up(c, n)) + Shift(c, FieldsDrift(fields));
    CounterWrap(c, n, VariantHead(name) + [DictOpen], VariantFieldsEvents(fields), [DictClose]);
    HeadCounter(c, n, name);
    CounterSnoc(c, n, VariantHead(name), DictOpen);
    VariantFieldsCounter(c, Up(c, Up(c, n)), fields);
    CounterOne(c, m, DictClose);
  }

  lemma {:induction false} SeqCounter(c: bool, n: nat, items: seq<Data>)
    ensures Counter(c, n, SeqEvents(items)) == n + Shift(c, ItemsDrift(items))
    decreases items, 1
  {
    CounterWrap(c, n, [ListOpen], ElemsEvents(items), [ListClose]);
    CounterOne(c, n, ListOpen);
    ElemsCounter(c, Up(c, n), items);
    CounterOne(c, Up(c, n) + Shift(c, ItemsDrift(items)), ListClose);
  }

  lemma {:induction false} ElemsCounter(c: bool, n: nat, items: seq<Data>)
    ensures Counter(c, n, ElemsEvents(items)) == n + Shift(c, ItemsDrift(items))
    decreases items, 0
  {
    if items != [] {
      var k := |items| - 1;
      var a := ElemsEvents(items[..k]);
      ElemsCounter(c, n, items[..k]);
      CounterAppend(c, n, a, Events(items[k]));
      EventsCounter(c, Counter(c, n, a), items[k]);
      CounterSnoc(c, n, a + Events(items[k]), Newline);
    }
  }

  lemma {:induction false} EntriesCounter(c: bool, n: nat, entries: seq<MapEntry>)
    ensures Counter(c, n, EntriesEvents(entries)) == n + Shift(c, EntriesDrift(entries))
    decreases entries, 0
  {
    if entries != [] {
      var k := |entries| - 1;
      assert entries[k] in entries && entries[k].key < entries[k];
      var key := entries[k].key;
      var a := EntriesEvents(entries[..k]);
      EntriesCounter(c, n, entries[..k]);
      CounterAppend(c, n, a, KeyEvents(key));
      if key.SStr? {
        FlatKeepsCounter(c, Counter(c, n, a), KeyEvents(key));
      } else {
        EventsCounter(c, Counter(c, n, a), key);
      }
      CounterAppend(c, n, a + KeyEvents(key), Events(entries[k].val));
      EventsCounter(c, Counter(c, n, a + KeyEvents(key)), entries[k].val);
      CounterSnoc(c, n, a + KeyEvents(key) + Events(entries[k].val), Newline);
    }
  }

  lemma {:induction false} FieldsCounter(c: bool, n: nat, fields: seq<FieldValue>)
    ensures Counter(c, n, FieldsEvents(fields)) == n + Shift(c, FieldsDrift(fields))
    decreases fields, 0
  {
    if fields != [] {
      var k := |fields| - 1;
      assert fields[k] in fields;
      var a := FieldsEvents(fields[..k]) + [Key(fields[k].name)];
      FieldsCounter(c, n, fields[..k]);
      CounterSnoc(c, n, FieldsEvents(fields[..k]), Key(fields[k].name));
      CounterAppend(c, n, a, Events(fields[k].val));
      EventsCounter(c, Counter(c, n, a), fields[k].val);
      CounterSnoc(c, n, a + Events(fields[k].val), Newline);
    }
  }

  lemma {:induction false} VariantFieldsCounter(c: bool, n: nat, fields: seq<FieldValue>)
    ensures Counter(c, n, VariantFieldsEvents(fields)) == n + Shift(c, FieldsDrift(fields))
    decreases fields, 0
  {
    if fields != [] {
      var k := |fields| - 1;
      assert fields[k] in fields;
      var a := VariantFieldsEvents(fields[..k]) + [Key(fields[k].name)];
      VariantFieldsCounter(c, n, fields[..k]);
      CounterSnoc(c, n, VariantFieldsEvents(fields[..k]), Key(fields[k].name));
      CounterAppend(c, n, a, Events(fields[k].val));
      EventsCounter(c, Counter(c, n, a), fields[k].val);
    }
  }

  lemma RunOne(c: bool, st: Fmt, e: Event)
    ensures Run(c, st, [e]) == Step(c, st, e)
  {
    assert [e][..0] == [];
  }

  lemma RunWrap(c: bool, st: Fmt, head: seq<Event>, body: seq<Event>, tail: seq<Event>)
    ensures Run(c, st, head + body + tail) == Run(c, Run(c, Run(c, st, head), body), tail)
  {
    RunAppend(c, st, head + body, tail);
    RunAppend(c, st, head, body);
  }

  // ---- The writer ----

  /**
   * A serializer writing into a growing string through a formatter.  The
   * default formatter (`compact == false`) tracks indentation; the compact
   * formatter ignores it and reports indent 0.
   */
  class Serializer {
    var out: string
    var indents: nat
    const compact: bool

    constructor(compact: bool)
      ensures out == [] && indents == 0 && this.compact == compact
    {
      out := [];
      indents := 0;
      this.compact := compact;
    }

    function State(): Fmt
      reads this
    {
      Fmt(out, indents)
    }

    function GetIndent(): nat
      reads this
    {
      Level(compact, indents)
    }

    // ---- Formatter primitives ----

    method Indent()
      modifies this
      ensures out == old(out) && indents == Up(compact, old(indents))
    {
      if !compact {
        indents := indents + 1;
      }
    }

    method Unindent()
      requires compact || indents > 0
      modifies this
      ensures out == old(out)
      ensures indents == if compact then old(indents) else old(indents) - 1
    {
      if !compact {
        indents := indents - 1;
      }
    }

    /** Writes `text` as is: the primitive under every token the formatter writes. */
    method WriteToken(text: string)
      modifies this
      ensures State() == Step(compact, old(State()), Token(text))
    {
      out := out + text;
    }

    method WriteNull()
      modifies this
      ensures State() == Step(compact, old(State()), Token(NullText))
    {
      WriteToken("()");
    }

    method WriteBool(b: bool)
      modifies this
      ensures State() == Step(compact, old(State()), Token(BoolText(b)))
    {
      if b {
        WriteToken("true");
      } else {
        WriteToken("false");
      }
    }

    /**
     * An integer is converted to a float and printed. The model writes its
     * exact digits and `.0`, which is what the source writes for magnitudes
     * up to 2^53; above that the `as f64` cast rounds.
     */
    method WriteNumber(n: int)
      modifies this
      ensures State() == Step(compact, old(State()), Token(NumberText(n)))
    {
      WriteToken(IntText(n) + ".0");
    }

    method WriteNewline()
      modifies this
      ensures State() == Step(compact, old(State()), Newline)
    {
      out := out + "\n";
    }

    /** Writes the current indentation, one `Tab` per level. */
    method WriteIndent()
      modifies this
      ensures indents == old(indents)
      ensures out == old(out) + Pad(GetIndent())
    {
      var n := GetIndent();
      var i := 0;
      while i < n
        invariant 0 <= i <= n
        invariant indents == old(indents)
        invariant out == old(out) + Pad(i)
      {
        out := out + Tab;
        i := i + 1;
      }
    }

    method WriteKey(key: string)
      modifies this
      ensures State() == Step(compact, old(State()), Key(key))
    {
      WriteIndent();
      out := out + key;
      out := out + " ";
    }

    method BeginList()
      modifies this
      ensures State() == Step(compact, old(State()), ListOpen)
    {
      if GetIndent() > 0 {
        out := out + "[";
      }
      Indent();
      WriteNewline();
    }

    method EndList()
      requires compact || indents > 0
      modifies this
      ensures State() == Step(compact, old(State()), ListClose)
    {
      Unindent();
      if GetIndent() > 0 {
        WriteIndent();
        out := out + "]";
      }
    }

    method BeginDict()
      modifies this
      ensures State() == Step(compact, old(State()), DictOpen)
    {
      if GetIndent() > 0 {
        out := out + "{";
      }
      Indent();
      WriteNewline();
    }

    method EndDict()
      requires compact || indents > 0
      modifies this
      ensures State() == Step(compact, old(State()), DictClose)
    {
      Unindent();
      if GetIndent() > 0 {
        WriteIndent();
        out := out + "}";
      }
    }
  
    method BeginString()
      modifies this
      ensures State() == Step(compact, old(State()), Token("\""))
    {
      WriteToken("\"");
    }

    method EndString()
      modifies this
      ensures State() == Step(compact, old(State()), Token("\""))
    {
      WriteToken("\"");
    }

    /** The fragment is written as is: no character is escaped. */
    method WriteStringFragment(fragment: string)
      modifies this
      ensures State() == Step(compact, old(State()), Token(fragment))
    {
      WriteToken(fragment);
    }

    // ---- The serializer proper ----

    method SerializeStr(s: string)
      modifies this
      ensures State() == Run(compact, old(State()), StrEvents(s))
    {
      ghost var s0 := State();
      BeginString();
      ghost var s1 := State();
      WriteStringFragment(s);
      ghost var s2 := State();
      EndString();
      RunOne(compact, s0, Token("\""));
      RunOne(compact, s1, Token(s));
      RunOne(compact, s2, Token("\""));
      RunWrap(compact, s0, [Token("\"")], [Token(s)], [Token("\"")]);
      assert [Token("\"")] + [Token(s)] + [Token("\"")] == StrEvents(s);
    }

    /** A value written as one token or one quoted string. */
    method SerializeScalar(v: Data)
      requires IsScalar(v)
      modifies this
      ensures State() == Run(compact, old(State()), Events(v))
    {
      ghost var s0 := State();
      match v
      case SBool(b) =>
        WriteBool(b);
        RunOne(compact, s0, Token(BoolText(b)));
      case SInt(n) =>
        WriteNumber(n);
        RunOne(compact, s0, Token(NumberText(n)));
      case SFloat(t) =>
        WriteToken(t);
        RunOne(compact, s0, Token(t));
      case SChar(c) =>
        SerializeStr([c]);
      case SStr(s) =>
        SerializeStr(s);
      case SUnitVariant(name) =>
        SerializeStr(name);
      case SUnit | SNone | SUnitStruct =>
        WriteNull();
        RunOne(compact, s0, Token(NullText));
    }

    /** Writes one value: the serializer's entry point for every shape. */
    method Serialize(v: Data) returns (r: Result<()>)
      modifies this
      ensures r.Ok? <==> KeysOk(v)
      ensures r.Err? ==> r.error == Explode
      ensures r.Ok? ==> State() == Run(compact, old(State()), Events(v))
      decreases v, 2
    {
      r := Ok(());
      match v
      case SBool(_) | SInt(_) | SFloat(_) | SChar(_) | SStr(_) | SUnit | SNone | SUnitStruct | SUnitVariant(_) =>
        SerializeScalar(v);
      case SSome(x) =>
        r := Serialize(x);
      case SNewtypeStruct(x) =>
        r := Serialize(x);
      case SNewtypeVariant(name, x) =>
        r := SerializeNewtypeVariant(name, x);
      case SSeq(items) =>
        r := SerializeSeq(items);
      case STupleVariant(name, items) =>
        r := SerializeTupleVariant(name, items);
      case SMap(entries) =>
        r := SerializeMap(entries);
      case SStruct(fields) =>
        r := SerializeStruct(fields);
      case SStructVariant(name, fields) =>
        r := SerializeStructVariant(name, fields);
    }

    /** A value followed by a newline: a sequence element, a map value or a struct field's value. */
    method SerializeLine(v: Data) returns (r: Result<()>)
      modifies this
      ensures r.Ok? <==> KeysOk(v)
      ensures r.Err? ==> r.error == Explode
      ensures r.Ok? ==> State() == Run(compact, old(State()), Events(v) + [Newline])
      decreases v, 3
    {
      ghost var s0 := State();
      r := Serialize(v);
      if r.Ok? {
        WriteNewline();
        RunSnoc(compact, s0, Events(v), Newline);
      }
    }

    /**
     * A map key: a string is written as a key (indentation, text, space),
     * a compound value is refused, anything else is written as a value.
     */
    method SerializeKey(k: Data) returns (r: Result<()>)
      modifies this
      ensures r.Ok? <==> !IsCompound(k) && KeysOk(k)
      ensures r.Err? ==> r.error == Explode
      ensures IsCompound(k) ==> State() == old(State())
      ensures r.Ok? ==> State() == Run(compact, old(State()), KeyEvents(k))
      decreases k, 3
    {
      if k.SStr? {
        ghost var s0 := State();
        WriteKey(k.s);
        RunOne(compact, s0, Key(k.s));
        r := Ok(());
      } else if IsCompound(k) {
        r := Err(Explode);
      } else {
        r := Serialize(k);
      }
    }

    /** The elements of a sequence, each on its own line. */
    method SerializeElements(items: seq<Data>) returns (r: Result<()>)
      modifies this
      ensures r.Ok? <==> ItemsOk(items)
      ensures r.Err? ==> r.error == Explode
      ensures r.Ok? ==> State() == Run(compact, old(State()), ElemsEvents(items))
      decreases items, 0
    {
      ghost var s0 := State();
      var i := 0;
      while i < |items|
        invariant 0 <= i <= |items|
        invariant ItemsOk(items[..i])
        invariant State() == Run(compact, s0, ElemsEvents(items[..i]))
      {
        ghost var s1 := State();
        r := SerializeLine(items[i]);
        ItemsOkSnoc(items, i);
        if r.Err? {
          ItemsOkPrefix(items, i + 1);
          return;
        }
        ElemsStep(compact, s0, items, i, s1, State());
        i := i + 1;
      }
      assert items[..i] == items;
      r := Ok(());
    }

    /** The entries of a map: each key, then its value and a newline. */
    method SerializeEntries(entries: seq<MapEntry>) returns (r: Result<()>)
      modifies this
      ensures r.Ok? <==> EntriesOk(entries)
      ensures r.Err? ==> r.error == Explode
      ensures r.Ok? ==> State() == Run(compact, old(State()), EntriesEvents(entries))
      decreases entries, 0
    {
      ghost var s0 := State();
      var i := 0;
      while i < |entries|
        invariant 0 <= i <= |entries|
        invariant EntriesOk(entries[..i])
        invariant State() == Run(compact, s0, EntriesEvents(entries[..i]))
      {
        var e := entries[i];
        assert e in entries && e.key < e && e.val < e;
        ghost var s1 := State();
        r := SerializeKey(e.key);
        EntriesOkSnoc(entries, i);
        if r.Err? {
          EntriesOkPrefix(entries, i + 1);
          return;
        }
        ghost var s2 := State();
        r := SerializeLine(e.val);
        if r.Err? {
          EntriesOkPrefix(entries, i + 1);
          return;
        }
        EntriesStep(compact, s0, entries, i, s1, s2, State());
        i := i + 1;
      }
      assert entries[..i] == entries;
      r := Ok(());
    }

    /** The fields of a struct: each name as a key, then the value and a newline. */
    method SerializeFields(fields: seq<FieldValue>) returns (r: Result<()>)
      modifies this
      ensures r.Ok? <==> FieldsOk(fields)
      ensures r.Err? ==> r.error == Explode
      ensures r.Ok? ==> State() == Run(compact, old(State()), FieldsEvents(fields))
      decreases fields, 0
    {
      ghost var s0 := State();
      var i := 0;
      while i < |fields|
        invariant 0 <= i <= |fields|
        invariant FieldsOk(fields[..i])
        invariant State() == Run(compact, s0, FieldsEvents(fields[..i]))
      {
        var f := fields[i];
        assert f in fields && f.val < f;
        ghost var s1 := State();
        WriteKey(f.name);
        ghost var s2 := State();
        r := SerializeLine(f.val);
        FieldsOkSnoc(fields, i);
        if r.Err? {
          FieldsOkPrefix(fields, i + 1);
          return;
        }
        FieldsStep(compact, s0, fields, i, s1, s2, State());
        i := i + 1;
      }
      assert fields[..i] == fields;
      r := Ok(());
    }

    /** The fields of a struct variant: unlike a struct's, no newline follows each one. */
    method SerializeVariantFields(fields: seq<FieldValue>) returns (r: Result<()>)
      modifies this
      ensures r.Ok? <==> FieldsOk(fields)
      ensures r.Err? ==> r.error == Explode
      ensures r.Ok? ==> State() == Run(compact, old(State()), VariantFieldsEvents(fields))
      decreases fields, 0
    {
      ghost var s0 := State();
      var i := 0;
      while i < |fields|
        invariant 0 <= i <= |fields|
        invariant FieldsOk(fields[..i])
        invariant State() == Run(compact, s0, VariantFieldsEvents(fields[..i]))
      {
        var f := fields[i];
        assert f in fields && f.val < f;
        ghost var s1 := State();
        WriteKey(f.name);
        ghost var s2 := State();
        r := Serialize(f.val);
        FieldsOkSnoc(fields, i);
        if r.Err? {
          FieldsOkPrefix(fields, i + 1);
          return;
        }
        VariantFieldsStep(compact, s0, fields, i, s1, s2, State());
        i := i + 1;
      }
      assert fields[..i] == fields;
      r := Ok(());
    }

    /** Opens a dict and writes the variant name as its key. */
    method BeginVariant(name: string)
      modifies this
      ensures State() == Run(compact, old(State()), VariantHead(name))
    {
      ghost var s0 := State();
      BeginDict();
      RunOne(compact, s0, DictOpen);
      WriteKey(name);
      RunSnoc(compact, s0, [DictOpen], Key(name));
    }

    method SerializeNewtypeVariant(name: string, x: Data) returns (r: Result<()>)
      modifies this
      ensures r.Ok? <==> KeysOk(x)
      ensures r.Err? ==> r.error == Explode
      ensures r.Ok? ==> State() == Run(compact, old(State()), NewtypeVariantEvents(name, x))
      decreases x, 3
    {
      ghost var s0 := State();
      BeginVariant(name);
      ghost var s1 := State();
      RunCounter(compact, s0, VariantHead(name));
      HeadCounter(compact, s0.indents, name);
      r := Serialize(x);
      if r.Err? {
        return;
      }
      ghost var s2 := State();
      RunCounter(compact, s1, Events(x));
      EventsCounter(compact, s1.indents, x);
      EndDict();
      ghost var s3 := State();
      WriteNewline();
      RunSnoc(compact, s2, [DictClose], Newline);
      RunOne(compact, s2, DictClose);
      RunWrap(compact, s0, VariantHead(name), Events(x), [DictClose, Newline]);
    }

    /** Opens a list, writes the elements and closes it. */
    method SerializeSeq(items: seq<Data>) returns (r: Result<()>)
      modifies this
      ensures r.Ok? <==> ItemsOk(items)
      ensures r.Err? ==> r.error == Explode
      ensures r.Ok? ==> State() == Run(compact, old(State()), SeqEvents(items))
      decreases items, 1
    {
      ghost var s0 := State();
      BeginList();
      RunOne(compact, s0, ListOpen);
      ghost var s1 := State();
      r := SerializeElements(items);
      if r.Err? {
        return;
      }
      ghost var s2 := State();
      RunCounter(compact, s1, ElemsEvents(items));
      ElemsCounter(compact, s1.indents, items);
      EndList();
      RunOne(compact, s2, ListClose);
      RunWrap(compact, s0, [ListOpen], ElemsEvents(items), [ListClose]);
    }

    /**
     * A tuple variant opens a dict, writes the variant name as its key and
     * opens a list; then the sequence serializer opens a second list, writes
     * the elements and closes one list; the dict is closed last.
     */
    method SerializeTupleVariant(name: string, items: seq<Data>) returns (r: Result<()>)
      modifies this
      ensures r.Ok? <==> ItemsOk(items)
      ensures r.Err? ==> r.error == Explode
      ensures r.Ok? ==> State() == Run(compact, old(State()), TupleVariantEvents(name, items))
      decreases items, 2
    {
      ghost var s0 := State();
      ghost var head := VariantHead(name) + [ListOpen];
      BeginVariant(name);
      BeginList();
      RunSnoc(compact, s0, VariantHead(name), ListOpen);
      ghost var s1 := State();
      RunCounter(compact, s0, head);
      CounterSnoc(compact, s0.indents, VariantHead(name), ListOpen);
      HeadCounter(compact, s0.indents, name);
      r := SerializeSeq(items);
      if r.Err? {
        return;
      }
      ghost var s2 := State();
      RunCounter(compact, s1, SeqEvents(items));
      SeqCounter(compact, s1.indents, items);
      EndDict();
      RunOne(compact, s2, DictClose);
      RunWrap(compact, s0, head, SeqEvents(items), [DictClose]);
    }

    method SerializeMap(entries: seq<MapEntry>) returns (r: Result<()>)
      modifies this
      ensures r.Ok? <==> EntriesOk(entries)
      ensures r.Err? ==> r.error == Explode
      ensures r.Ok? ==> State() == Run(compact, old(State()), MapEvents(entries))
      decreases entries, 1
    {
      ghost var s0 := State();
      BeginDict();
      RunOne(compact, s0, DictOpen);
      ghost var s1 := State();
      r := SerializeEntries(entries);
      if r.Err? {
        return;
      }
      ghost var s2 := State();
      RunCounter(compact, s1, EntriesEvents(entries));
      EntriesCounter(compact, s1.indents, entries);
      EndDict();
      RunOne(compact, s2, DictClose);
      RunWrap(compact, s0, [DictOpen], EntriesEvents(entries), [DictClose]);
    }

    method SerializeStruct(fields: seq<FieldValue>) returns (r: Result<()>)
      modifies this
      ensures r.Ok? <==> FieldsOk(fields)
      ensures r.Err? ==> r.error == Explode
      ensures r.Ok? ==> State() == Run(compact, old(State()), StructEvents(fields))
      decreases fields, 1
    {
      ghost var s0 := State();
      BeginDict();
      RunOne(compact, s0, DictOpen);
      ghost var s1 := State();
      r := SerializeFields(fields);
      if r.Err? {
        return;
      }
      ghost var s2 := State();
      RunCounter(compact, s1, FieldsEvents(fields));
      FieldsCounter(compact, s1.indents, fields);
      EndDict();
      RunOne(compact, s2, DictClose);
      RunWrap(compact, s0, [DictOpen], FieldsEvents(fields), [DictClose]);
    }

    /**
     * A struct variant opens a dict and writes the variant name as its key;
     * then the map serializer opens a second dict, writes the fields and
     * closes one dict.
     */
    method SerializeStructVariant(name: string, fields: seq<FieldValue>) returns (r: Result<()>)
      modifies this
      ensures r.Ok? <==> FieldsOk(fields)
      ensures r.Err? ==> r.error == Explode
      ensures r.Ok? ==> State() == Run(compact, old(State()), StructVariantEvents(name, fields))
      decreases fields, 1
    {
      ghost var s0 := State();
      ghost var head := VariantHead(name) + [DictOpen];
      BeginVariant(name);
      BeginDict();
      RunSnoc(compact, s0, VariantHead(name), DictOpen);
      ghost var s1 := State();
      RunCounter(compact, s0, head);
      CounterSnoc(compact, s0.indents, VariantHead(name), DictOpen);
      HeadCounter(compact, s0.indents, name);
      r := SerializeVariantFields(fields);
      if r.Err? {
        return;
      }
      ghost var s2 := State();
      RunCounter(compact, s1, VariantFieldsEvents(fields));
      VariantFieldsCounter(compact, s1.indents, fields);
      EndDict();
      RunOne(compact, s2, DictClose);
      RunWrap(compact, s0, head, VariantFieldsEvents(fields), [DictClose]);
    }
  }

  /** Serializes `v` with the default formatter into a fresh string. */
  method ToString(v: Data) returns (r: Result<string>)
    ensures r.Ok? <==> KeysOk(v)
    ensures r.Err? ==> r.error == Explode
    ensures r.Ok? ==> r.value == Render(v)
  {
    var ser := new Serializer(false);
    var e := ser.Serialize(v);
    if e.Err? {
      return Err(e.error);
    }
    r := Ok(ser.out);
  }

  /** The text the default formatter writes for `v`, starting at the root. */
  function Render(v: Data): string {
    Run(false, Fmt([], 0), Events(v)).out
  }

  // ---- The compact formatter ----

  /** What the compact formatter writes for each call: no brackets and no indentation. */
  function CompactText(es: seq<Event>): string
    decreases |es|
  {
    if es == [] then ""
    else CompactText(es[..|es| - 1]) + CompactPiece(es[|es| - 1])
  }

  function CompactPiece(e: Event): string {
    match e
    case Token(t) => t
    case Key(k) => k + " "
    case ListClose => ""
    case DictClose => ""
    case _ => "\n"
  }

  /**
   * The compact formatter writes tokens and keys as they come, a newline
   * for each newline call and each opening bracket, nothing for a closing
   * bracket, and never moves its counter.
   */
  lemma {:induction false} CompactRun(st: Fmt, es: seq<Event>)
    ensures Run(true, st, es) == Fmt(st.out + CompactText(es), st.indents)
    decreases |es|
  {
    if es != [] {
      var init := es[..|es| - 1];
      var e := es[|es| - 1];
      CompactRun(st, init);
      CompactStep(st.indents, e);
      Assoc(st.out, CompactText(init), CompactPiece(e));
    }
  }

  lemma CompactStep(n: nat, e: Event)
    ensures Text(true, n, e) == CompactPiece(e) && Next(true, n, e) == n
  {
    assert Pad(0) == "";
  }

  // ---- Scalars read back ----

  lemma RenderToken(t: string)
    ensures Render(SFloat(t)) == t
    ensures Events(SFloat(t)) == [Token(t)]
  {
    RunOne(false, Fmt([], 0), Token(t));
  }

  /** Booleans are written as the words the lexer reads back. */
  lemma RenderBool(b: bool, tail: string)
    ensures Bool(Render(SBool(b)) + tail) == Parsed(tail, b)
  {
    RunOne(false, Fmt([], 0), Token(BoolText(b)));
    assert Render(SBool(b)) == BoolText(b);
    var i := BoolText(b) + tail;
    if b {
      assert i[..4] == "true" && i[4..] == tail;
    } else {
      assert i[0] == 'f';
      assert !StartsWith(i, "true");
      assert i[..5] == "false" && i[5..] == tail;
    }
  }

  /**
   * An integer up to 2^53 in magnitude, which `as f64` holds exactly, is
   * written as its decimal digits and ".0"; the number recognizer reads
   * that back as the same value, whatever follows that is not a digit.
   */
  lemma RenderNumber(n: int, tail: string)
    requires -F64Exact <= n <= F64Exact
    requires tail == [] || !IsDigit(tail[0])
    ensures Number(Render(SInt(n)) + tail) == Parsed(tail, n as real)
  {
    RunOne(false, Fmt([], 0), Token(NumberText(n)));
    assert Render(SInt(n)) + tail == IntText(n) + (".0" + tail);
    IntTextRoundTrip(n, tail);
  }

  /**
   * An integer of any width that `as f64` holds exactly, written and read
   * back as that width, is unchanged.
   */
  lemma RenderInt(w: IntWidth, n: int, tail: string)
    requires MinOf(w) <= n <= MaxOf(w)
    requires -F64Exact <= n <= F64Exact
    requires tail == [] || !IsDigit(tail[0])
    ensures Number(Render(SInt(n)) + tail).Parsed?
    ensures CoerceInt(w, Number(Render(SInt(n)) + tail).value) == Ok(n)
  {
    RenderNumber(n, tail);
    CoerceInRange(w, n);
  }

  lemma StrWrites(c: bool, st: Fmt, s: string)
    ensures Run(c, st, StrEvents(s)) == Fmt(st.out + "\"" + s + "\"", st.indents)
  {
    var s1 := Step(c, st, Token("\""));
    var s2 := Step(c, s1, Token(s));
    RunOne(c, st, Token("\""));
    RunOne(c, s1, Token(s));
    RunOne(c, s2, Token("\""));
    RunWrap(c, st, [Token("\"")], [Token(s)], [Token("\"")]);
    assert [Token("\"")] + [Token(s)] + [Token("\"")] == StrEvents(s);
  }

  lemma RenderStr(s: string)
    ensures Render(SStr(s)) == "\"" + s + "\""
  {
    StrWrites(false, Fmt([], 0), s);
  }

  /** A string with no quote and no backslash is read back unchanged. */
  lemma RenderPlainStr(s: string, tail: string)
    requires IsPlain(s)
    ensures ParseString(Render(SStr(s)) + tail) == Parsed(tail, s)
  {
    RenderStr(s);
    PlainRoundTrip(s, tail);
  }

  // ---- Layout of a struct of scalars ----

  /** Values written as one token or one quoted string. */
  predicate IsScalar(v: Data) {
    v.SBool? || v.SInt? || v.SFloat? || v.SChar? || v.SStr? || v.SUnit? || v.SNone? ||
    v.SUnitStruct? || v.SUnitVariant?
  }

  /** The text a scalar is written as, independent of the formatter and its indent. */
  function ScalarText(v: Data): string
    requires IsScalar(v)
  {
    match v
    case SBool(b) => BoolText(b)
    case SInt(n) => NumberText(n)
    case SFloat(t) => t
    case SChar(c) => "\"" + [c] + "\""
    case SStr(s) => "\"" + s + "\""
    case SUnitVariant(name) => "\"" + name + "\""
    case _ => NullText
  }

  lemma TokenRun(c: bool, st: Fmt, t: string)
    ensures Run(c, st, [Token(t)]) == Fmt(st.out + t, st.indents)
  {
    RunOne(c, st, Token(t));
  }

  lemma ScalarRun(c: bool, st: Fmt, v: Data)
    requires IsScalar(v)
    ensures Run(c, st, Events(v)) == Fmt(st.out + ScalarText(v), st.indents)
  {
    if v.SChar? {
      assert Events(v) == StrEvents([v.c]);
      StrWrites(c, st, [v.c]);
    } else if v.SStr? {
      assert Events(v) == StrEvents(v.s);
      StrWrites(c, st, v.s);
    } else if v.SUnitVariant? {
      assert Events(v) == StrEvents(v.variant);
      StrWrites(c, st, v.variant);
    } else {
      assert Events(v) == [Token(ScalarText(v))];
      TokenRun(c, st, ScalarText(v));
    }
  }

  /** Struct fields holding scalars, one line each at indent level `k`. */
  function FieldLines(k: nat, fields: seq<FieldValue>): string
    requires forall i :: 0 <= i < |fields| ==> IsScalar(fields[i].val)
  {
    if fields == [] then ""
    else
      var f := fields[|fields| - 1];
      FieldLines(k, fields[..|fields| - 1]) + FieldLine(k, f)
  }

  function FieldLine(k: nat, f: FieldValue): string
    requires IsScalar(f.val)
  {
    Pad(k) + f.name + " " + ScalarText(f.val) + "\n"
  }

  /** One field of scalar value: its key, its value and a newline. */
  lemma FieldRun(k: nat, o: string, f: FieldValue)
    requires IsScalar(f.val)
    ensures Run(false, Fmt(o, k), [Key(f.name)] + (Events(f.val) + [Newline])) ==
      Fmt(o + FieldLine(k, f), k)
  {
    var s1 := Fmt(o, k);
    var s2 := Fmt(o + (Pad(k) + f.name + " "), k);
    assert Run(false, s1, [Key(f.name)]) == s2 by {
      RunOne(false, s1, Key(f.name));
      assert Text(false, k, Key(f.name)) == Pad(k) + f.name + " ";
    }
    assert Run(false, s2, Events(f.val) + [Newline]) == Fmt(o + FieldLine(k, f), k) by {
      var p := Pad(k) + f.name + " ";
      ScalarRun(false, s2, f.val);
      RunSnoc(false, s2, Events(f.val), Newline);
      Assoc(o, p, ScalarText(f.val));
      Assoc(o, p + ScalarText(f.val), "\n");
    }
    RunAppend(false, s1, [Key(f.name)], Events(f.val) + [Newline]);
  }

  lemma {:induction false} FieldLinesRun(k: nat, o: string, fields: seq<FieldValue>)
    requires forall i :: 0 <= i < |fields| ==> IsScalar(fields[i].val)
    ensures Run(false, Fmt(o, k), FieldsEvents(fields)) == Fmt(o + FieldLines(k, fields), k)
    decreases |fields|
  {
    if fields != [] {
      var n := |fields| - 1;
      var f := fields[n];
      var a := FieldsEvents(fields[..n]);
      var b := [Key(f.name)] + (Events(f.val) + [Newline]);
      var o1 := o + FieldLines(k, fields[..n]);
      assert FieldsEvents(fields) == a + b by {
        FieldsSnoc(fields, n);
        assert fields[..n + 1] == fields;
      }
      assert Run(false, Fmt(o, k), a) == Fmt(o1, k) by {
        FieldLinesRun(k, o, fields[..n]);
      }
      assert Run(false, Fmt(o1, k), b) == Fmt(o + FieldLines(k, fields), k) by {
        FieldRun(k, o1, f);
        Assoc(o, FieldLines(k, fields[..n]), FieldLine(k, f));
      }
      RunAppend(false, Fmt(o, k), a, b);
    }
  }

  /**
   * A root struct of scalars is written with no braces: a newline, then one
   * line per field, indented one level, holding the name, a space and the
   * value.
   */
  lemma {:induction false} RootStructLayout(fields: seq<FieldValue>)
    requires forall i :: 0 <= i < |fields| ==> IsScalar(fields[i].val)
    ensures Render(SStruct(fields)) == "\n" + FieldLines(1, fields)
  {
    var st := Fmt([], 0);
    var body := "\n" + FieldLines(1, fields);
    RootOpen();
    FieldLinesRun(1, "\n", fields);
    RootClose(body);
    assert Events(SStruct(fields)) == [DictOpen] + FieldsEvents(fields) + [DictClose];
    RunWrap(false, st, [DictOpen], FieldsEvents(fields), [DictClose]);
  }

  /** The root dict opens with a bare newline. */
  lemma RootOpen()
    ensures Run(false, Fmt([], 0), [DictOpen]) == Fmt("\n", 1)
  {
    RunOne(false, Fmt([], 0), DictOpen);
    assert Text(false, 0, DictOpen) == "\n";
  }

  /** The root dict closes with nothing written. */
  lemma RootClose(o: string)
    ensures Run(false, Fmt(o, 1), [DictClose]) == Fmt(o, 0)
  {
    RunOne(false, Fmt(o, 1), DictClose);
    assert Text(false, 1, DictClose) == [];
  }

  /** The struct of three scalars from the end-to-end examples. */
  function SimpleFields(): (fs: seq<FieldValue>)
    ensures forall i :: 0 <= i < |fs| ==> IsScalar(fs[i].val)
  {
    [FieldValue("boolean", SBool(true)), FieldValue("integer", SInt(22)),
     FieldValue("string", SStr("hello world"))]
  }

  lemma PadOne()
    ensures Pad(1) == "    "
  {
    assert Pad(0) == "";
  }

  lemma SimpleLines()
    ensures FieldLine(1, SimpleFields()[0]) == "    boolean true\n"
    ensures FieldLine(1, SimpleFields()[1]) == "    integer 22.0\n"
    ensures FieldLine(1, SimpleFields()[2]) == "    string \"hello world\"\n"
  {
    BoolLine();
    IntegerLine();
    StringLine();
  }

  lemma BoolLine()
    ensures FieldLine(1, FieldValue("boolean", SBool(true))) == "    boolean true\n"
  {
    PadOne();
  }

  lemma IntegerLine()
    ensures FieldLine(1, FieldValue("integer", SInt(22))) == "    integer 22.0\n"
  {
    PadOne();
    TwentyTwo();
  }

  lemma StringLine()
    ensures FieldLine(1, FieldValue("string", SStr("hello world"))) == "    string \"hello world\"\n"
  {
    PadOne();
  }

  lemma TwentyTwo()
    ensures NumberText(22) == "22.0"
  {
    assert NatText(2) == "2";
    assert NatText(22) == NatText(2) + "2";
  }

  lemma SimpleFieldLines()
    ensures FieldLines(1, SimpleFields()) ==
      "    boolean true\n" + "    integer 22.0\n" + "    string \"hello world\"\n"
  {
    var fs := SimpleFields();
    var l0, l1, l2 := "    boolean true\n", "    integer 22.0\n", "    string \"hello world\"\n";
    SimpleLines();
    assert FieldLines(1, fs[..1]) == l0 by {
      assert fs[..1][..0] == [];
    }
    assert FieldLines(1, fs[..2]) == l0 + l1 by {
      assert fs[..2][..1] == fs[..1];
    }
  }

  /**
   * How the code writes that struct: a leading newline, every field
   * indented one level, the integer with a ".0" suffix.
   */
  lemma SimpleStructText()
    ensures Render(SStruct(SimpleFields())) ==
      "\n" + "    boolean true\n" + "    integer 22.0\n" + "    string \"hello world\"\n"
  {
    var l0, l1, l2 := "    boolean true\n", "    integer 22.0\n", "    string \"hello world\"\n";
    SimpleFieldLines();
    RootStructLayout(SimpleFields());
    Assoc("\n", l0 + l1, l2);
    Assoc("\n", l0, l1);
  }

  // ---- What the serializer gets wrong ----

  /** The unit value is written as "()", which the unit recognizer does not accept. */
  lemma UnitNotReadBack(tail: string)
    ensures Render(SUnit) == NullText
    ensures Unit(Render(SUnit) + tail).Failed?
  {
    RunOne(false, Fmt([], 0), Token(NullText));
    assert (NullText + tail)[0] == '(';
  }

  /** The text the unit recognizer reads. */
  const CorrectedNullText: string := "null"

  lemma CorrectedUnitReadBack(tail: string)
    ensures Unit(CorrectedNullText + tail) == Parsed(tail, ())
  {
    assert (CorrectedNullText + tail)[..4] == "null";
  }

  /**
   * A string holding one double quote is written as three quotes, which
   * read back as the empty string with a quote left over.
   */
  lemma QuoteNotReadBack()
    ensures Render(SStr("\"")) == "\"\"\""
    ensures ParseString(Render(SStr("\""))) == Parsed("\"", "")
  {
    RenderStr("\"");
    EscapeRoundTrip("", "\"");
    assert "\"" + Escape("") + "\"" + "\"" == "\"\"\"";
  }

  /** A string literal with its contents escaped. */
  function QuotedText(s: string): string {
    "\"" + Escape(s) + "\""
  }

  /** Escaped contents read back as the original string, whatever it holds. */
  lemma QuotedRoundTrip(s: string, tail: string)
    ensures ParseString(QuotedText(s) + tail) == Parsed(tail, s)
  {
    EscapeRoundTrip(s, tail);
  }

  /** A tuple variant that opens one list and closes it. */
  function CorrectedTupleVariantEvents(name: string, items: seq<Data>): seq<Event> {
    VariantHead(name) + SeqEvents(items) + [DictClose]
  }

  /** A struct variant whose fields form one dict, closed like a struct's. */
  function CorrectedStructVariantEvents(name: string, fields: seq<FieldValue>): seq<Event> {
    VariantHead(name) + StructEvents(fields) + [DictClose]
  }

  /** The corrected tuple variant returns the counter to where its contents leave it. */
  lemma CorrectedTupleVariantCounter(c: bool, n: nat, name: string, items: seq<Data>)
    ensures Counter(c, n, CorrectedTupleVariantEvents(name, items)) == n + Shift(c, ItemsDrift(items))
  {
    CounterWrap(c, n, VariantHead(name), SeqEvents(items), [DictClose]);
    HeadCounter(c, n, name);
    SeqCounter(c, Up(c, n), items);
    CounterOne(c, Up(c, n) + Shift(c, ItemsDrift(items)), DictClose);
  }

  lemma CorrectedStructVariantCounter(c: bool, n: nat, name: string, fields: seq<FieldValue>)
    ensures Counter(c, n, CorrectedStructVariantEvents(name, fields)) == n + Shift(c, FieldsDrift(fields))
  {
    CounterWrap(c, n, VariantHead(name), StructEvents(fields), [DictClose]);
    HeadCounter(c, n, name);
    StructCounter(c, Up(c, n), fields);
    CounterOne(c, Up(c, n) + Shift(c, FieldsDrift(fields)), DictClose);
  }

  /** The smallest tuple variant already leaves the default formatter one level deeper. */
  lemma TupleVariantLeavesIndent()
    ensures Counter(false, 0, TupleVariantEvents("V", [])) == 1
  {
    TupleVariantCounter(false, 0, "V", []);
  }

  /** So does the smallest struct variant. */
  lemma StructVariantLeavesIndent()
    ensures Counter(false, 0, StructVariantEvents("V", [])) == 1
  {
    StructVariantCounter(false, 0, "V", []);
  }
}
