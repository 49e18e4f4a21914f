# Tot codec core in Dafny

This project models the core of `tot-rs`, a Rust library for Tot, a small
human-oriented configuration format: `key value` lines, `[..]` lists,
`{..}` dicts, `//` and `/* */` comments, `null`, booleans, numbers and
quoted strings with escapes. It covers four parts:

- **String literals** (`string_lit.dfy`, module `StringLit`). These are the
  nom combinators of `src/parser/string.rs`: `\u{..}` escapes, letter
  escapes, escaped whitespace, literal runs, the fragment fold and the
  quoted string. Each combinator is a pure function returning
  `PResult` (`Parsed(rest, value)` or `Failed`).
- **Lexical pieces** (`lexer.dfy`, module `Lexer`). These are `id`, `key`,
  the two comment forms and the separator of `key_value` from
  `src/parser.rs`. The module also holds the recognizers that `src/de.rs`
  calls as `parser::all_ignored`, `parser::unit`, `parser::boolean` and
  `parser::number`.
- **The deserializer** (`de.dfy`, module `De`, with `de_types.dfy`,
  module `Shapes`, and `coerce.dfy`, module `Coerce`).
  - `Deserializer` is a class with the two fields the source mutates: the
    remaining `input` and the nesting `depth`.
  - Every `deserialize_*` entry point, the key deserializer and the
    `SeqAccess`/`MapAccess`/`EnumAccess`/`VariantAccess` callbacks are
    methods of that class.
  - serde's `Deserialize` implementations are replaced by a `Shape` naming
    the target type. The loops of serde's derived visitors are the `Visit*`
    methods.
  - Every method is proved to return only values that conform to the
    requested shape.
  - Every method is proved never to fail with "Expected dict end": that
    branch of `deserialize_map` is unreachable.
- **The serializer** (`ser.dfy`, module `Ser`).
  - `Serializer` is a class holding the output text, the indent counter of
    the `DefaultFormatter` and a flag selecting the `CompactFormatter`.
  - Each formatter call and each `serialize_*` method is a method of that
    class.
  - `Events(v)` is the sequence of formatter calls that serializing `v`
    makes. `Run` replays such a sequence on a formatter state.
  - Every serializer method is proved, when it succeeds, to leave exactly
    the state that replaying its events leaves.
  - Lemmas about `Run` then give the indentation balance of every shape,
    the text of scalars and flat structs, and which outputs the
    recognizers read back.

`base.dfy` (module `Base`) holds what the modules share:

- the parser result type;
- the error kinds, one per message the source produces;
- character classes;
- nom's `take_until` search (`Find`).

## Model

| member | source | states |
|---|---|---|
| Base.Find | src/parser.rs:44-46 | `take_until`: returns the first position where the pattern occurs and none earlier, or reports that it occurs nowhere |
| StringLit.HexRunLen | src/parser/string.rs:13 | `take_while_m_n(1, 6, hex)`: the run stops at the cap, at the end of the input or at the first non-hex character, and everything before it is hex |
| StringLit.ParseUnicode | src/parser/string.rs:12-18 | a parsed `\u{..}` body starts with `u{`, ends with `}` and consumes at least four characters |
| StringLit.UnicodeEscape | src/parser/string.rs:12-18 | `u{h}` with 1 to 6 hex digits yields the character with code `h`, and fails when `h` is not a Unicode scalar value (`char::from_u32` gives None) |
| StringLit.SevenHexDigitsFail | src/parser/string.rs:13-14 | seven hex digits never parse: after six digits the next character must be `}` |
| StringLit.UnicodeEmoji | src/parser/string.rs:78-82 | `u{1F602}` parses to U+1F602, as the unit test expects |
| StringLit.UnicodeSurrogateFails | src/parser/string.rs:17 | `u{D800}` fails because surrogates are not characters |
| StringLit.ParseEscapedChar | src/parser/string.rs:20-35 | a parsed escape starts with a backslash and consumes at least two characters |
| StringLit.LetterEscape | src/parser/string.rs:20-35 | a backslash followed by any of the eight escape letters yields the character the letter stands for and consumes exactly two characters |
| StringLit.EscapeTable | src/parser/string.rs:25-32 | the table itself: `\n \r \t \b \f \\ \/ \"` map to newline, CR, tab, backspace, form feed, backslash, slash and quote |
| StringLit.ParseEscapedWhitespace | src/parser/string.rs:37-39 | a backslash followed by one or more whitespace characters is consumed up to the first non-whitespace |
| StringLit.ParseLiteral | src/parser/string.rs:41-45 | a literal is a non-empty run free of `"` and `\`; it fails exactly when the input is empty or starts with one of them; it stops at one of them or at the end |
| StringLit.ParseFragment | src/parser/string.rs:54-60 | a fragment always consumes input, and the fragment parser fails only at the end or before `"` or `\` |
| StringLit.BuildString | src/parser/string.rs:62-70 | the fold stops at the end or at `"` or `\`, never grows the remaining input, and only appends to the accumulator |
| StringLit.BuildStringAcc | src/parser/string.rs:63-70 | folding from a non-empty accumulator gives that accumulator followed by what folding from an empty one gives |
| StringLit.FragmentsInOrder | src/parser/string.rs:63-70 | the decoded string is the first fragment's contribution followed by the rest, in input order |
| StringLit.BuildStringStops | src/parser/string.rs:63 | `fold_many0` ends only where no further fragment parses |
| StringLit.BuildStringSuffix | src/parser/string.rs:63-70 | what the fold leaves is a suffix of its input |
| StringLit.ParseString | src/parser/string.rs:62-73 | a parsed string starts with `"` and consumes at least the two quotes |
| StringLit.ParseStringRest | src/parser/string.rs:72 | after a parsed string, the rest is a suffix of the input and the character just consumed is the closing quote |
| StringLit.EscapedWhitespaceElided | src/parser/string.rs:67 | escaped whitespace contributes nothing to the decoded string |
| StringLit.LiteralStep | src/parser/string.rs:65 | a literal run is appended to the decoded string unchanged |
| StringLit.BuildStringExtend | src/parser/string.rs:54-70 | a prefix the fold consumes completely is folded the same way when a quote or a backslash follows it |
| StringLit.BadEscapeFails | src/parser/string.rs:62-73 | after any run of fragments, a backslash not followed by a known escape or by whitespace stops the fold there, so the closing `char('"')` fails and with it the whole string |
| StringLit.BadEscapeAfterEscape | src/parser/string.rs:62-73 | `"\n\q"` fails: an unknown escape after a known one |
| StringLit.UnterminatedFails | src/parser/string.rs:72 | a string whose fragments run to the end of the input fails for lack of the closing quote |
| StringLit.PlainConsumed | src/parser/string.rs:41-45 | a run without `"` or `\` is consumed by the fold in one literal |
| StringLit.EscapeRoundTrip | src/parser/string.rs:62-73 | escaping `"` and `\` in any string, quoting it and parsing gives back the string and exactly the text that followed |
| StringLit.PlainRoundTrip | src/parser/string.rs:62-73 | a string without `"` or `\` round-trips through quoting alone |
| Lexer.Id | src/parser.rs:44-46 | `id` succeeds exactly when the input holds a space; the id is the text before the first space, and the rest starts at that space |
| Lexer.IdAt | src/parser.rs:44-46 | with the first space at index k, `id` returns the first k characters and leaves the rest from k |
| Lexer.Key | src/parser.rs:48-50 | `key` never grows the input; it consumes nothing only when the input starts with a space |
| Lexer.KeySuffix | src/parser.rs:48-50 | what a parsed key leaves is a suffix of its input |
| Lexer.KeyBare | src/parser.rs:48-50 | when the string alternative fails, a word without spaces followed by a space parses as itself and leaves the space |
| Lexer.UnterminatedKeyExample | src/parser.rs:48-50 | `"my key 2` has no closing quote, so it is re-read bare: the key is `"my`, quote included, and ` key 2` is left |
| Lexer.KeyQuoted | src/parser.rs:48-50 | a quoted, escaped key parses back to the original string whatever it contains |
| Lexer.BareKeyExample | src/parser.rs:119-122 | `key("my-key 2")` leaves `" 2"` and yields `my-key` |
| Lexer.QuotedKeyExample | src/parser.rs:128-130 | `key("\"my key\" 2")` leaves `" 2"` and yields `my key` |
| Lexer.LineComment | src/parser.rs:68-70 | a line comment is `//` and at least one character before the line ending; it fails exactly when there is no `//` or nothing follows it on the line |
| Lexer.LineCommentOf | src/parser.rs:68-70 | `//body` with a non-empty body free of line endings is consumed up to the line ending |
| Lexer.LineCommentExamples | src/parser.rs:133-140 | the two unit-test comments leave `""` and `"\ntext"` |
| Lexer.BlockComment | src/parser.rs:72-74 | a parsed block comment starts with `/*` and consumes at least four characters |
| Lexer.BlockCommentOf | src/parser.rs:72-74 | `/*body*/` is consumed through the first `*/` when the body holds none |
| Lexer.BlockCommentNotNested | src/parser.rs:73 | block comments do not nest: the first `*/` closes the comment even after an inner `/*` |
| Lexer.BlockCommentExamples | src/parser.rs:142-149 | the two unit-test block comments leave `"\nhello world"`; a `/*` never closed fails |
| Lexer.BlockCommentFails | src/parser.rs:72-74 | a block comment fails exactly when the input does not start with `/*` or no `*/` follows it |
| Lexer.StripComments | src/parser.rs:76-78 | a parsed comment starts with `//` or `/*` and consumes input |
| Lexer.StripCommentsSuffix | src/parser.rs:76-78 | what a comment leaves is a suffix of its input |
| Lexer.StripCommentsOrder | src/parser.rs:76-78 | `alt` order: a comment parses exactly when the line or the block form does; a parsed line comment wins, otherwise the result is the block comment's |
| Lexer.Separator | src/parser.rs:58 | the separator `multispace0, strip_comments, multispace0` needs a comment after the leading spaces and leaves no leading whitespace |
| Lexer.SeparatorNeedsComment | src/parser.rs:58 | whitespace alone is not a separator, because `strip_comments` is mandatory |
| Lexer.KeyValueHead | src/parser.rs:56-66 | the defined head of `key_value`: a comment is required before the key, and the separator after it leaves no leading whitespace |
| Lexer.AdhocKeyValueHead | src/parser.rs:89-109 | `/*beep*/ hello //world` yields the key `hello` with nothing left over |
| Lexer.AllIgnored | src/de.rs:34-41 | `all_ignored` stops at the end or at a character that is neither whitespace nor a comma and that starts no comment |
| Lexer.AllIgnoredIdempotent | src/de.rs:34-41 | skipping twice is skipping once |
| Lexer.AllIgnoredSuffix | src/de.rs:34-41 | what the skip leaves is a suffix of its input |
| Lexer.AllIgnoredSkips | src/de.rs:34-41 | a run of whitespace and commas is skipped entirely |
| Lexer.AllIgnoredStops | src/de.rs:34-41 | the skip leaves the input alone at the end, or where the first character is neither whitespace nor a comma and no comment parses |
| Lexer.AllIgnoredComment | src/de.rs:34-41 | a comment at the front is consumed and the skip goes on from what it leaves |
| Lexer.WhitespaceExample | src/de.rs:763-773 | `parse_bool` fails before the comment; after `parse_ws` it reads `true` |
| Lexer.Unit | src/de.rs:43-49 | `unit` succeeds exactly on a `null` prefix and consumes exactly it |
| Lexer.Bool | src/de.rs:51-58 | `boolean` succeeds exactly on a `true` or `false` prefix and yields the matching value |
| Lexer.Number | src/de.rs:60-67 | `number` succeeds exactly when the input starts with a digit or with `-` and a digit, and consumes input |
| Lexer.NumberSuffix | src/de.rs:60-67 | what a parsed number leaves is a suffix of its input |
| Lexer.LiteralExamples | src/de.rs:776-792 | `null`, `true` and `1.0` parse to unit, true and 1.0 with nothing left |
| Lexer.NatTextValue | src/ser.rs:46-48 | the decimal digits written for a natural number read back as that number |
| Lexer.IntTextRoundTrip | src/ser.rs:396-398 | an integer written as `digits.0` (negative with `-`) is read back by `number` as the same value, whatever follows that is not a digit |
| Lexer.NumberNegated | src/de.rs:60-67 | a leading `-` negates the value and consumes nothing else |
| Coerce.Round | src/de.rs:129 | `f64::round`: the nearest integer, halves away from zero |
| Coerce.RoundHalves | src/de.rs:129 | 2.5 rounds to 3, -2.5 to -3, 0.49 to 0 |
| Coerce.AsI64 | src/de.rs:151 | `as i64` saturates at the bounds of i64 and keeps in-range values |
| Coerce.AsU64 | src/de.rs:179 | `as u64` sends negatives to 0, saturates at the top and keeps in-range values |
| Coerce.TryFrom | src/de.rs:129 | `try_from` accepts exactly the values in the target width's range and keeps them unchanged |
| Coerce.CoerceInt | src/de.rs:125-181 | the value is rounded first. A signed narrow width (i8, i16, i32) fails with out-of-range exactly when the rounded value lies outside its range, at either end. An unsigned narrow width (u8, u16, u32) fails only when the rounded value is above its maximum, and turns a negative value into 0, because `as u64` runs first. i64 and u64 always succeed with the saturated value |
| Coerce.CoerceInRange | src/de.rs:125-181 | an integral value inside the width's range is returned unchanged |
| Coerce.UnsignedNegativeIsZero | src/de.rs:154-181 | a negative number read as an unsigned width yields 0, not an error |
| Coerce.CoerceExamples | src/de.rs:822-957 | the bounds and truncation cases of the integer unit tests |
| Shapes.IndexOf | src/de.rs:332-379 | the index of the first field or variant name equal to the given one, or none when no name is |
| Shapes.Names | src/de.rs:332-379 | the names of the fields or variants, one per entry and in order |
| Shapes.FinishStruct | src/de.rs:332-343 | a struct is complete exactly when every missing field is an `Option` (which becomes `None`); otherwise the error is missing-field |
| Shapes.FinishConforms | src/de.rs:332-343 | a completed struct conforms to its shape |
| Shapes.CharOf | src/de.rs:197-202 | a string gives a `char` exactly when it holds one character; otherwise it is an invalid value |
| De.EnumFromName | src/de.rs:354-356 | an enum written as a string is accepted exactly when it names a unit variant; an unknown name and a non-unit variant fail |
| De.Deserializer.constructor | src/de.rs:16-18 | a new deserializer holds the whole text at depth 0 |
| De.Deserializer.Peek | src/de.rs:20-25 | the first remaining character, or "eof" when nothing is left |
| De.Deserializer.Take | src/de.rs:27-32 | consumes and returns the first remaining character, or fails with "eof" and consumes nothing |
| De.Deserializer.ParseWs | src/de.rs:34-41 | the input becomes what `all_ignored` leaves |
| De.Deserializer.ParseUnit | src/de.rs:43-49 | consumes `null`, or fails and leaves the input alone |
| De.Deserializer.ParseBool | src/de.rs:51-58 | returns the boolean `boolean` reads and advances past it, or fails and leaves the input alone |
| De.Deserializer.ParseNumber | src/de.rs:60-67 | returns the number `number` reads and advances past it, or fails and leaves the input alone |
| De.Deserializer.ParseString | src/de.rs:69-76 | returns the decoded string and advances past it, or fails and leaves the input alone |
| De.Deserializer.ParseKey | src/de.rs:78-85 | returns the key `key` reads and advances past it, or fails and leaves the input alone |
| De.Deserializer.DeserializeBool | src/de.rs:118-123 | reads a boolean, or fails without consuming |
| De.Deserializer.DeserializeInt | src/de.rs:125-181 | reads a number and coerces it to the width; the result lies in the width's range; an out-of-range number fails after it has been consumed |
| De.Deserializer.DeserializeFloat | src/de.rs:183-195 | reads a number as a float |
| De.Deserializer.DeserializeStr | src/de.rs:204-216 | reads a quoted string |
| De.Deserializer.DeserializeChar | src/de.rs:197-202 | reads a quoted string and accepts it only when it holds one character |
| De.Deserializer.DeserializeUnit | src/de.rs:244-257 | reads `null` as unit (also for unit structs) |
| De.Deserializer.DeserializeIdentifier | src/de.rs:381-386 | reads a key (bare or quoted) as a string |
| De.Deserializer.Deserialize | src/de.rs:101-394 | dispatch on the target shape: the result conforms to the shape, the input never grows, and a nested success restores the depth and consumes input; bool and string shapes read exactly their literal |
| De.Deserializer.DeserializeAny | src/de.rs:104-116 | dispatches on the first character; any other character is "Syntax"; `'` always fails, because the string parser demands `"` |
| De.Deserializer.DeserializeOption | src/de.rs:232-242 | `n` followed by `null` is `None`; a value that starts with `n` but is not `null` fails; anything else is `Some` of the inner shape |
| De.Deserializer.DeserializeSeq | src/de.rs:266-283 | demands `[` (otherwise "Expected array open", with the character consumed), reads elements one depth deeper and restores the depth; a success consumed a `]` of the input after the elements and skipped the ignored run after it; "Expected array end" (raised here, not inside) means the character taken after a tuple's elements was not `]` |
| De.Deserializer.DeserializeMap | src/de.rs:304-343 | a success restores the depth. At the root no brace is read: the first key is read at the start of the input after the ignored run, and a text-keyed map whose first key fails is the empty map. A nested one demands `{` (otherwise "Expected dict open"), and its success consumed a `}` of the input and skipped the ignored run after it |
| De.Deserializer.DeserializeEnum | src/de.rs:345-379 | a quoted name selects a unit variant. At the root the variant name is the key read after the ignored run, with no brace; a nested enum demands `{` (otherwise "Expected enum open"), a success consumed a closing `}` of the input and stops right after it, and "Expected enum end" (raised here) means the character taken after the variant was not `}`. A success restores the depth |
| De.Deserializer.KeyDeserialize | src/de.rs:406-626 | string, char and identifier keys are read with `key` and never change the depth; other key shapes are read as values |
| De.Deserializer.NextElement | src/de.rs:641-656 | after skipping ignorable text, `]` ends the sequence without consuming it; the end of the input is "eof"; an element is followed by a skip |
| De.Deserializer.NextKey | src/de.rs:661-681 | nested: `}` ends the dict, the end of the input is "eof". At the root a failed key of any shape ends the dict instead of failing unless the failure left the depth raised; a text key never raises it, and a text key that parses is the key read after the ignored run. A success restores the depth |
| De.Deserializer.NextValue | src/de.rs:683-694 | reads a value of the given shape and skips what follows it |
| De.Deserializer.NextEntry | src/de.rs:661-694 | serde's default `next_entry`: `next_key_seed` then `next_value_seed`; an entry conforms to the map's shapes and consumes input; a nested end is `}`; at the root a failed text key ends the map and a parsed one is the entry's key |
| De.Deserializer.VisitSeq | src/de.rs:641-656 | serde's sequence visitor: elements until `]`, each conforming to the element shape |
| De.Deserializer.VisitTuple | src/de.rs:285-302 | serde's tuple visitor: a success holds one conforming value per element shape of the tuple, and restores the depth; the empty tuple reads nothing; a non-empty tuple that meets `]` first is "invalid length" |
| De.Deserializer.VisitDict | src/de.rs:304-343 | the visitor `deserialize_map` hands `Access` to: a struct's or a map's, whose success restores the depth; at the root a text-keyed map starts with the key read after the ignored run, and is empty when that key fails |
| De.Deserializer.VisitMap | src/de.rs:658-695 | serde's map visitor, one `next_entry` at a time: a success is a map whose keys and values conform to the map's shapes and restores the depth; a nested one stops at `}`; at the root its first key is the key read after the ignored run, and it is empty when that key fails |
| De.Deserializer.VisitStruct | src/de.rs:332-343 | serde's struct visitor: a success conforms to the struct shape (every field present or an `Option` left `None`) and restores the depth; a nested one stops at `}` |
| De.Deserializer.ReadField | src/de.rs:683-694 | a known field is stored once; a repeated one is "duplicate field" and consumes nothing |
| De.Deserializer.VisitEnum | src/de.rs:697-710 | the variant name is the key read after the ignored run (a failed key is a parse failure); a success is a known variant that is not a unit variant, with data conforming to it, and restores the depth |
| De.Deserializer.VariantPayload | src/de.rs:712-748 | a unit variant in braced form is "Expected string"; newtype, tuple and struct variants read their data |
| De.FromStr | src/de.rs:88-99 | deserializes from the root and fails with "Input not empty" when input is left; a success conforms to the shape; a bool or string document is accepted exactly when nothing follows the literal, with that literal's value |
| Ser.Pad | src/ser.rs:9 | the indentation for n levels is 4n spaces |
| Ser.RunCounter | src/ser.rs:128-162 | the indent a replay leaves depends only on the calls made, not on the text |
| Ser.EventsCounter | src/ser.rs:353-695 | serializing any value moves the indent counter by a fixed drift; the drift is zero unless the value holds a tuple or struct variant |
| Ser.ScalarCounter | src/ser.rs:380-474 | scalars leave the indent counter unchanged |
| Ser.SeqCounter | src/ser.rs:500-504 | a sequence restores the indent counter (apart from its elements' drift) |
| Ser.MapCounter | src/ser.rs:532-539 | a map restores the indent counter (apart from its entries' drift) |
| Ser.StructCounter | src/ser.rs:541-547 | a struct restores the indent counter (apart from its fields' drift) |
| Ser.NewtypeVariantCounter | src/ser.rs:483-498 | a newtype variant restores the indent counter (apart from its value's drift) |
| Ser.TupleVariantCounter | src/ser.rs:518-530 | a tuple variant leaves the default formatter's counter one level higher than it found it |
| Ser.StructVariantCounter | src/ser.rs:549-560 | a struct variant leaves the default formatter's counter one level higher than it found it |
| Ser.Serializer.constructor | src/ser.rs:697-701 | a new serializer has empty output and indent 0 |
| Ser.Serializer.Indent | src/ser.rs:132-134 | the default formatter counts one level up; the compact one ignores it |
| Ser.Serializer.Unindent | src/ser.rs:136-138 | the default formatter counts one level down; the compact one ignores it |
| Ser.Serializer.WriteNull | src/ser.rs:25-28 | writes `()` |
| Ser.Serializer.WriteBool | src/ser.rs:30-38 | writes `true` or `false` |
| Ser.Serializer.WriteNumber | src/ser.rs:40-49 | writes an integral number as its decimal digits followed by `.0` |
| Ser.Serializer.WriteNewline | src/ser.rs:20-22 | writes a newline |
| Ser.Serializer.WriteIndent | src/ser.rs:71-73 | writes four spaces per level the formatter reports |
| Ser.Serializer.WriteKey | src/ser.rs:70-77 | writes the key padded to the current indent, then a space |
| Ser.Serializer.BeginList | src/ser.rs:79-86 | writes `[` only when nested, counts a level up and writes a newline |
| Ser.Serializer.EndList | src/ser.rs:88-101 | counts a level down, then writes the padding and `]` only when still nested |
| Ser.Serializer.BeginDict | src/ser.rs:103-110 | writes `{` only when nested, counts a level up and writes a newline |
| Ser.Serializer.EndDict | src/ser.rs:112-125 | counts a level down, then writes the padding and `}` only when still nested |
| Ser.Serializer.BeginString | src/ser.rs:51-54 | writes the opening quote |
| Ser.Serializer.EndString | src/ser.rs:56-59 | writes the closing quote |
| Ser.Serializer.WriteStringFragment | src/ser.rs:61-68 | writes the fragment unchanged |
| Ser.Serializer.SerializeStr | src/ser.rs:430-435 | writes the string between quotes, unescaped |
| Ser.Serializer.SerializeScalar | src/ser.rs:380-474 | booleans, numbers, chars, strings, unit, none, unit structs and unit variants write the calls `Events` gives |
| Ser.Serializer.Serialize | src/ser.rs:361-560 | succeeds exactly when no map key anywhere is a seq, tuple-variant, map, struct or struct-variant key (`IsCompound`) ("explode!" otherwise); `Some`, newtype-struct and newtype-variant keys are passed on to the value serializer, and then writes exactly the calls `Events` gives |
| Ser.Serializer.SerializeKey | src/ser.rs:164-351 | a string key is written with `write_key`; other scalars are written as values, and `Some`, newtype-struct and newtype-variant keys are passed on to the value serializer; a seq, tuple-variant, map, struct or struct-variant key (`IsCompound`) is refused with "explode!" and writes nothing |
| Ser.Serializer.SerializeLine | src/ser.rs:568-574 | a value followed by a newline |
| Ser.Serializer.SerializeElements | src/ser.rs:568-574 | each element followed by a newline, stopping at the first refusal |
| Ser.Serializer.SerializeEntries | src/ser.rs:638-651 | each key and then its value followed by a newline |
| Ser.Serializer.SerializeFields | src/ser.rs:662-669 | each field name as a key and then its value followed by a newline |
| Ser.Serializer.SerializeVariantFields | src/ser.rs:680-690 | each field name as a key and then its value, with no newline |
| Ser.Serializer.BeginVariant | src/ser.rs:493-494 | opens a dict and writes the variant name as its key |
| Ser.Serializer.SerializeNewtypeVariant | src/ser.rs:483-498 | a one-key dict holding the value, closed and followed by a newline |
| Ser.Serializer.SerializeSeq | src/ser.rs:500-516 | opens a list, writes the elements and closes the list |
| Ser.Serializer.SerializeTupleVariant | src/ser.rs:518-530 | dict, key, two list openings, the elements, one list closing and the dict closing |
| Ser.Serializer.SerializeMap | src/ser.rs:532-539 | opens a dict, writes the entries and closes the dict |
| Ser.Serializer.SerializeStruct | src/ser.rs:541-547 | opens a dict, writes the fields and closes the dict |
| Ser.Serializer.SerializeStructVariant | src/ser.rs:549-560 | dict, key, a second dict opening, the fields without newlines and one dict closing |
| Ser.ToString | src/ser.rs:697-706 | succeeds exactly when no key is a seq, tuple-variant, map, struct or struct-variant key (`IsCompound`); the text is what the default formatter writes from the root |
| Ser.CompactRun | src/ser.rs:147-162 | the compact formatter never changes its counter, writes no brackets and no indentation, and appends the tokens, keys and newlines in order |
| Ser.RenderBool | src/ser.rs:30-38 | a written boolean is read back by `boolean` |
| Ser.RenderNumber | src/ser.rs:396-398 | a written integer of magnitude at most 2^53 is read back by `number` as the same value |
| Ser.RenderInt | src/ser.rs:384-415 | an integer of any width and of magnitude at most 2^53, written and read back with the same width, is unchanged |
| Ser.RenderStr | src/ser.rs:430-435 | a string is written as its text between quotes |
| Ser.RenderPlainStr | src/ser.rs:430-435 | a string with no `"` and no `\` is read back unchanged |
| Ser.ScalarRun | src/ser.rs:380-474 | each scalar appends its text and leaves the counter alone |
| Ser.FieldLinesRun | src/ser.rs:662-669 | fields with scalar values are written one per line, each padded to the current indent |
| Ser.RootStructLayout | src/ser.rs:541-547 | a root struct of scalar fields is written as a newline followed by one indented `name value` line per field |
| Ser.SimpleStructText | tests/e2e.rs:13-27 | the text actually written for the end-to-end test struct: a leading newline, four-space indentation and `22.0` |
| Ser.UnitNotReadBack | src/ser.rs:25-28 | unit is written as `()`, which the `null` recognizer rejects |
| Ser.CorrectedUnitReadBack | src/de.rs:43-49 | written as `null`, unit is read back |
| Ser.QuoteNotReadBack | src/ser.rs:430-435 | the string `"` is written as three quotes, which read back as the empty string with a quote left over |
| Ser.QuotedRoundTrip | src/parser/string.rs:62-73 | with `"` and `\` escaped, every string reads back unchanged |
| Ser.TupleVariantLeavesIndent | src/ser.rs:518-530 | the smallest tuple variant leaves the default formatter one level deeper |
| Ser.CorrectedTupleVariantCounter | src/ser.rs:518-530 | a tuple variant that opens one list returns the counter to its start (apart from its elements' drift) |
| Ser.StructVariantLeavesIndent | src/ser.rs:549-560 | the smallest struct variant leaves the default formatter one level deeper |
| Ser.CorrectedStructVariantCounter | src/ser.rs:549-560 | a struct variant whose fields form one closed dict returns the counter to its start |

## Left out

- Floating point: a float is carried as the text the shortest round-trip
  printer gives for it (`SFloat(text)`), and the deserializer reads
  numbers as exact reals. Rounding to f32 or f64 and the
  `as f64` conversion of integers are not modelled.
- Ser.Serializer.WriteNumber: writes an integer as its digits plus `.0`.
  That agrees with the ryu printer only for magnitudes below 10^16, and
  with `as f64` only up to 2^53.
- Ser.RenderNumber, Ser.RenderInt: the read-back is stated only for
  magnitudes up to 2^53. Above that `as f64` rounds (2^53+1 is written as
  `9007199254740992.0`), so a 64-bit value need not read back unchanged.
- Lexer.Number: a stand-in for nom's `double`. It accepts an optional `-`,
  digits, and an optional `.` with digits. Exponents, a leading `+`, `inf`
  and `nan` are not recognized.
- `src/de.rs:36-62` calls `parser::all_ignored`, `parser::unit`,
  `parser::boolean` and `parser::number`, which `src/parser.rs` does not
  define. The model assumes that `all_ignored` skips whitespace, commas and
  both comment forms, that `unit` recognizes `null`, that `boolean`
  recognizes `true` and `false`, and that `number` is `Lexer.Number`. The
  unit tests at `src/de.rs:763-792` agree with these assumptions.
- `scalar` and `parse` in `src/parser.rs` are unimplemented stubs in the
  source, so `key_value` is modelled only up to its separator
  (`Lexer.KeyValueHead`) and the document tree `parse` would build is
  not modelled.
- Byte strings: `serialize_bytes` and `deserialize_bytes` are not
  modelled. They go through the sequence path that is modelled.
- `HashMap` ordering and duplicate keys in maps: a map is an ordered
  sequence of entries.
- Integer widths of the counters: the u64 `depth` and the u32 `indents`
  are unbounded naturals.
- Ser.Down: the default formatter's `indents -= 1` would underflow at 0.
  The model clamps at 0 instead, and the serializer methods' preconditions
  show that the clamp is never reached.
- I/O errors from the writer (`Error::Io`) and the UTF-8 check of
  `to_string` are not modelled; writing never fails.
- nom's error kinds and positions become one `ParseFailure`.
- serde's visitor error messages become the error kinds of `Base.Error`.
- `src/cli.rs` is not part of this model.
- De.FromStr: states its "Input not empty" check exactly only for bool
  and string shapes. For the other shapes its postcondition gives
  conformance and the absence of "Expected dict end".
- De.Deserializer.NextKey: the depth leak at the root is kept as written.
  A non-text key at depth 1 that fails inside a container leaves `depth`
  raised, because `?` skips the decrement; `next_key_seed` then sees a
  depth of 2 or more and returns the error. Every successful call restores
  the depth, so it is not listed as a finding.
- The serializer class models the code as written. The corrected members
  under Findings are stated and proved beside it, and the class does not
  use them.
- The end-to-end golden strings in `tests/e2e.rs` and the `"asdf"`
  expectation of the unit test in `src/ser.rs` disagree with the code.
  The model follows the code; `Ser.SimpleStructText` states the text the
  code writes.
- Those golden strings start with the first field and do not indent it.
  The code writes a leading newline and indents every field of the root
  struct by four spaces. Both end with a newline after the last field.
  The model follows the code.
- The serializer writes unit as `()` (`src/ser.rs:25-28`), while the
  deserializer reads unit as `null` (the test at `src/de.rs:776-780`). It
  writes strings without escaping, as the TODO at `src/ser.rs:429` admits.
  The model follows the code; both are findings below.

## Findings

| source | as written | input that shows it | evidently intended | confidence | as-written member | corrected member |
|---|---|---|---|---|---|---|
| src/ser.rs:25-28 | unit, `None` and unit structs are written as `()` | `to_string(&())` gives `()`, which `from_str::<()>` rejects | write `null`, the literal the deserializer reads | not executed | Ser.UnitNotReadBack | Ser.CorrectedUnitReadBack |
| src/ser.rs:430-435 | string contents are written without escaping | the string `"` is written as `"""`, which reads back as the empty string | escape `"` and `\` so that every string reads back | not executed | Ser.QuoteNotReadBack | Ser.QuotedRoundTrip |
| src/ser.rs:518-530 | a tuple variant opens two lists and closes one | `V()` leaves the default formatter's indent at 1, so everything after it is over-indented | open one list, so the indent returns to where it was | not executed | Ser.TupleVariantLeavesIndent | Ser.CorrectedTupleVariantCounter |
| src/ser.rs:549-560 | a struct variant opens two dicts and closes one | `V {}` leaves the default formatter's indent at 1 | open one dict and close it as a struct does | not executed | Ser.StructVariantLeavesIndent | Ser.CorrectedStructVariantCounter |
