/*
 * Double-quoted string literals of Tot (src/parser/string.rs).
 *
 * Each recognizer is a prefix parser: it takes the remaining input and
 * returns the unconsumed rest with the value read, or fails. A string is a
 * `"`, a left fold of fragments, and a closing `"`; a fragment is a literal
 * run, a backslash escape, or a backslash followed by whitespace, which
 * contributes nothing.
 */
module StringLit {
  import opened Base

  /** The values `char::from_u32` accepts: Unicode scalar values. */
  predicate IsScalarValue(v: int) {
    0 <= v < 0xD800 || 0xE000 <= v < 0x11_0000
  }

  predicate AllHex(h: string) {
    forall k :: 0 <= k < |h| ==> IsHexDigit(h[k])
  }

  /** No character of `s` is a quote or a backslash. */
  predicate IsPlain(s: string) {
    forall k :: 0 <= k < |s| ==> s[k] != '"' && s[k] != '\\'
  }

  /**
   * Length of the run of hex digits at the head of `s`, stopping after
   * `cap` of them (the bound of `take_while_m_n(1, 6, ..)`).
   */
  function HexRunLen(s: string, cap: nat): (n: nat)
    ensures n <= cap && n <= |s|
    ensures AllHex(s[..n])
    ensures n < cap && n < |s| ==> !IsHexDigit(s[n])
  {
    if cap == 0 || |s| == 0 || !IsHexDigit(s[0]) then 0
    else
      var m := HexRunLen(s[1..], cap - 1);
      assert s[..1 + m] == [s[0]] + s[1..][..m];
      1 + m
  }

  /** Value of a hexadecimal numeral, most significant digit first. */
  function HexNumber(h: string): nat
    requires AllHex(h)
  {
    if |h| == 0 then 0 else HexNumber(h[..|h| - 1]) * 16 + HexValue(h[|h| - 1])
  }

  /** `u{H}` with 1 to 6 hex digits `H` naming a Unicode scalar value. */
  function ParseUnicode(i: string): (r: PResult<char>)
    ensures r.Parsed? ==> |r.rest| + 4 <= |i|
    ensures r.Parsed? ==> i[0] == 'u' && i[1] == '{' && i[|i| - |r.rest| - 1] == '}'
  {
    if |i| < 2 || i[0] != 'u' || i[1] != '{' then Failed
    else
      var n := HexRunLen(i[2..], 6);
      if n == 0 || 2 + n >= |i| || i[2 + n] != '}' then Failed
      else
        assert i[2..][..n] == i[2..2 + n];
        var v := HexNumber(i[2..2 + n]);
        if IsScalarValue(v) then Parsed(i[3 + n..], v as char) else Failed
  }

  /** The one-letter escapes `\n \r \t \b \f \\ \/ \"` and the characters they stand for. */
  function EscapeLetter(c: char): Option<char> {
    if c == 'n' then Some('\n')
    else if c == 'r' then Some('\r')
    else if c == 't' then Some('\t')
    else if c == 'b' then Some('\U{8}')
    else if c == 'f' then Some('\U{C}')
    else if c == '\\' then Some('\\')
    else if c == '/' then Some('/')
    else if c == '"' then Some('"')
    else None
  }

  /** A backslash, then a `u{..}` escape or one of the escape letters. */
  function ParseEscapedChar(i: string): (r: PResult<char>)
    ensures r.Parsed? ==> |r.rest| + 2 <= |i| && i[0] == '\\'
  {
    if |i| == 0 || i[0] != '\\' then Failed
    else
      match ParseUnicode(i[1..])
      case Parsed(rest, c) => Parsed(rest, c)
      case Failed =>
        if |i| >= 2 && EscapeLetter(i[1]).Some? then Parsed(i[2..], EscapeLetter(i[1]).value)
        else Failed
  }

  /** Length of the run of whitespace at the head of `s`. */
  function WsRunLen(s: string): (n: nat)
    ensures n <= |s|
    ensures forall k :: 0 <= k < n ==> IsMultispace(s[k])
    ensures n < |s| ==> !IsMultispace(s[n])
  {
    if |s| == 0 || !IsMultispace(s[0]) then 0 else 1 + WsRunLen(s[1..])
  }

  /** A backslash followed by one or more whitespace characters. */
  function ParseEscapedWhitespace(i: string): (r: PResult<()>)
    ensures r.Parsed? ==> |r.rest| + 2 <= |i| && i[0] == '\\'
    ensures r.Parsed? ==> IsMultispace(i[1]) && (r.rest == [] || !IsMultispace(r.rest[0]))
  {
    if |i| == 0 || i[0] != '\\' then Failed
    else
      var n := WsRunLen(i[1..]);
      if n == 0 then Failed else Parsed(i[1 + n..], ())
  }

  /** Length of the longest prefix of `s` without a quote or a backslash. */
  function LiteralLen(s: string): (n: nat)
    ensures n <= |s| && IsPlain(s[..n])
    ensures n < |s| ==> s[n] == '"' || s[n] == '\\'
  {
    if |s| == 0 || s[0] == '"' || s[0] == '\\' then 0
    else
      var m := LiteralLen(s[1..]);
      assert s[..1 + m] == [s[0]] + s[1..][..m];
      1 + m
  }

  /** A maximal non-empty run of characters other than `"` and `\`. */
  function ParseLiteral(i: string): (r: PResult<string>)
    ensures r.Parsed? ==> i == r.value + r.rest && r.value != [] && IsPlain(r.value)
    ensures r.Parsed? ==> r.rest == [] || r.rest[0] == '"' || r.rest[0] == '\\'
    ensures r.Failed? <==> i == [] || i[0] == '"' || i[0] == '\\'
  {
    var n := LiteralLen(i);
    assert i == i[..n] + i[n..];
    if n == 0 then Failed else Parsed(i[n..], i[..n])
  }

  datatype Fragment = Literal(text: string) | EscapedChar(ch: char) | EscapedWhitespace

  /** Tries a literal run, then an escaped character, then escaped whitespace. */
  function ParseFragment(i: string): (r: PResult<Fragment>)
    ensures r.Parsed? ==> |r.rest| < |i|
    ensures r.Failed? ==> i == [] || i[0] == '"' || i[0] == '\\'
  {
    match ParseLiteral(i)
    case Parsed(rest, s) => Parsed(rest, Literal(s))
    case Failed =>
      match ParseEscapedChar(i)
      case Parsed(rest, c) => Parsed(rest, EscapedChar(c))
      case Failed =>
        match ParseEscapedWhitespace(i)
        case Parsed(rest, _) => Parsed(rest, EscapedWhitespace)
        case Failed => Failed
  }

  /** What a fragment appends to the string under construction. */
  function Contribution(f: Fragment): string {
    match f
    case Literal(s) => s
    case EscapedChar(c) => [c]
    case EscapedWhitespace => ""
  }

  /**
   * The `fold_many0` of string.rs: parse fragments while one parses,
   * appending each one's contribution to `acc`. Returns the input left at
   * the first place no fragment parses, and the accumulated string.
   */
  function BuildString(i: string, acc: string): (r: (string, string))
    ensures |r.0| <= |i|
    ensures r.0 == [] || r.0[0] == '"' || r.0[0] == '\\'
    ensures |acc| <= |r.1| && r.1[..|acc|] == acc
    decreases |i|
  {
    match ParseFragment(i)
    case Failed => (i, acc)
    case Parsed(rest, f) =>
      var r := BuildString(rest, acc + Contribution(f));
      assert (acc + Contribution(f))[..|acc|] == acc;
      r
  }

  /** `"`, the folded fragments, `"`. */
  function ParseString(i: string): (r: PResult<string>)
    ensures r.Parsed? ==> |r.rest| + 2 <= |i|
    ensures r.Parsed? ==> i[0] == '"'
  {
    if |i| == 0 || i[0] != '"' then Failed
    else
      var (rest, s) := BuildString(i[1..], "");
      if |rest| > 0 && rest[0] == '"' then Parsed(rest[1..], s) else Failed
  }

  // ---------------------------------------------------------------------
  // The fold

  /** One step of the fold: a fragment parsed, its contribution appended. */
  lemma BuildStringStep(i: string, acc: string)
    requires ParseFragment(i).Parsed?
    ensures BuildString(i, acc)
         == BuildString(ParseFragment(i).rest, acc + Contribution(ParseFragment(i).value))
  {
  }

  /** The fold ends where no fragment parses. */
  lemma BuildStringDone(i: string, acc: string)
    requires ParseFragment(i).Failed?
    ensures BuildString(i, acc) == (i, acc)
  {
  }

  /** The accumulator only prefixes what the fold appends. */
  lemma {:induction false} BuildStringAcc(i: string, acc: string)
    ensures BuildString(i, acc).0 == BuildString(i, "").0
    ensures BuildString(i, acc).1 == acc + BuildString(i, "").1
    decreases |i|
  {
    var pf := ParseFragment(i);
    if pf.Parsed? {
      var c := Contribution(pf.value);
      var x := BuildString(pf.rest, "").1;
      assert BuildString(i, acc) == BuildString(pf.rest, acc + c) by {
        BuildStringStep(i, acc);
      }
      assert BuildString(i, "") == BuildString(pf.rest, c) by {
        BuildStringStep(i, "");
        assert "" + c == c;
      }
      BuildStringAcc(pf.rest, acc + c);
      BuildStringAcc(pf.rest, c);
      Assoc(acc, c, x);
    }
  }

  /**
   * The decoded string is the in-order concatenation of the fragments'
   * contributions: the first fragment's contribution comes first and the
   * rest is decoded from where it ended.
   */
  lemma FragmentsInOrder(i: string, rest: string, f: Fragment)
    requires ParseFragment(i) == Parsed(rest, f)
    ensures BuildString(i, "").0 == BuildString(rest, "").0
    ensures BuildString(i, "").1 == Contribution(f) + BuildString(rest, "").1
  {
    BuildStringStep(i, "");
    assert "" + Contribution(f) == Contribution(f);
    BuildStringAcc(rest, Contribution(f));
  }

  /** Where the fold stops, no fragment parses. */
  lemma {:induction false} BuildStringStops(i: string, acc: string)
    ensures ParseFragment(BuildString(i, acc).0).Failed?
    decreases |i|
  {
    var pf := ParseFragment(i);
    if pf.Parsed? {
      BuildStringStep(i, acc);
      BuildStringStops(pf.rest, acc + Contribution(pf.value));
    }
  }

  /** Each recognizer leaves a suffix of its input. */
  lemma UnicodeSuffix(i: string)
    ensures ParseUnicode(i).Parsed? ==> IsSuffix(ParseUnicode(i).rest, i)
  {
  }

  lemma EscapedCharSuffix(i: string)
    ensures ParseEscapedChar(i).Parsed? ==> IsSuffix(ParseEscapedChar(i).rest, i)
  {
    if |i| > 0 && ParseEscapedChar(i).Parsed? {
      UnicodeSuffix(i[1..]);
      var u := ParseUnicode(i[1..]);
      if u.Parsed? {
        assert IsSuffix(i[1..], i);
        SuffixTrans(u.rest, i[1..], i);
      }
    }
  }

  lemma FragmentSuffix(i: string)
    ensures ParseFragment(i).Parsed? ==> IsSuffix(ParseFragment(i).rest, i)
  {
    EscapedCharSuffix(i);
  }

  lemma {:induction false} BuildStringSuffix(i: string, acc: string)
    ensures IsSuffix(BuildString(i, acc).0, i)
    decreases |i|
  {
    var pf := ParseFragment(i);
    if pf.Parsed? {
      BuildStringStep(i, acc);
      FragmentSuffix(i);
      BuildStringSuffix(pf.rest, acc + Contribution(pf.value));
      SuffixTrans(BuildString(i, acc).0, pf.rest, i);
    } else {
      BuildStringDone(i, acc);
    }
  }

  /**
   * What `ParseString` leaves is exactly the input after the closing quote:
   * the character before the remainder is that quote.
   */
  lemma ParseStringRest(i: string)
    requires ParseString(i).Parsed?
    ensures IsSuffix(ParseString(i).rest, i)
    ensures i[|i| - |ParseString(i).rest| - 1] == '"'
  {
    var b := BuildString(i[1..], "");
    BuildStringSuffix(i[1..], "");
    assert IsSuffix(i[1..], i);
    SuffixTrans(b.0, i[1..], i);
    assert IsSuffix(b.0[1..], b.0);
    SuffixTrans(b.0[1..], b.0, i);
  }

  // ---------------------------------------------------------------------
  // Properties of the recognizers

  /** A plain run followed by a quote or backslash is read as one literal. */
  lemma {:induction false} LiteralLenPlain(a: string, b: string)
    requires IsPlain(a) && b != [] && (b[0] == '"' || b[0] == '\\')
    ensures LiteralLen(a + b) == |a|
    decreases |a|
  {
    if a != [] {
      assert (a + b)[1..] == a[1..] + b;
      LiteralLenPlain(a[1..], b);
    }
  }

  /** A backslash and an escape letter decode to that letter's character. */
  lemma LetterEscape(c: char, rest: string)
    requires EscapeLetter(c).Some?
    ensures ParseEscapedChar(['\\', c] + rest) == Parsed(rest, EscapeLetter(c).value)
  {
    var i := ['\\', c] + rest;
    assert i[1..][0] == c;
    assert ParseUnicode(i[1..]).Failed?;
    assert i[2..] == rest;
  }

  /** The escape table. */
  lemma EscapeTable(rest: string)
    ensures ParseEscapedChar("\\n" + rest) == Parsed(rest, '\n')
    ensures ParseEscapedChar("\\r" + rest) == Parsed(rest, '\r')
    ensures ParseEscapedChar("\\t" + rest) == Parsed(rest, '\t')
    ensures ParseEscapedChar("\\b" + rest) == Parsed(rest, '\U{8}')
    ensures ParseEscapedChar("\\f" + rest) == Parsed(rest, '\U{C}')
    ensures ParseEscapedChar("\\\\" + rest) == Parsed(rest, '\\')
    ensures ParseEscapedChar("\\/" + rest) == Parsed(rest, '/')
    ensures ParseEscapedChar("\\\"" + rest) == Parsed(rest, '"')
  {
    LetterEscape('n', rest);
    LetterEscape('r', rest);
    LetterEscape('t', rest);
    LetterEscape('b', rest);
    LetterEscape('f', rest);
    LetterEscape('\\', rest);
    LetterEscape('/', rest);
    LetterEscape('"', rest);
  }

  /** The hex run of `h + "}" + rest` is exactly `h` when `h` has 1 to 6 hex digits. */
  lemma {:induction false} HexRunOf(h: string, t: string, cap: nat)
    requires AllHex(h) && |h| <= cap && t != [] && !IsHexDigit(t[0])
    ensures HexRunLen(h + t, cap) == |h|
    decreases |h|
  {
    if h != [] {
      assert (h + t)[1..] == h[1..] + t;
      HexRunOf(h[1..], t, cap - 1);
    }
  }

  /**
   * `u{H}` decodes to the character whose code point `H` spells, when `H` has
   * 1 to 6 hex digits, and fails when that value is not a scalar value.
   */
  lemma UnicodeEscape(h: string, rest: string)
    requires 1 <= |h| <= 6 && AllHex(h)
    ensures IsScalarValue(HexNumber(h)) ==>
      ParseUnicode("u{" + h + "}" + rest) == Parsed(rest, HexNumber(h) as char)
    ensures !IsScalarValue(HexNumber(h)) ==> ParseUnicode("u{" + h + "}" + rest) == Failed
  {
    UnicodeLayout(h, rest);
    UnicodeAt("u{" + h + "}" + rest, |h|);
  }

  lemma UnicodeLayout(h: string, rest: string)
    requires 1 <= |h| <= 6 && AllHex(h)
    ensures var i := "u{" + h + "}" + rest;
      3 + |h| <= |i| && i[0] == 'u' && i[1] == '{' && i[2 + |h|] == '}' &&
      HexRunLen(i[2..], 6) == |h| && i[2..2 + |h|] == h && i[3 + |h|..] == rest
  {
    var i := "u{" + h + "}" + rest;
    assert i[2..] == h + ("}" + rest);
    HexRunOf(h, "}" + rest, 6);
    assert i[2..2 + |h|] == h;
    assert i[3 + |h|..] == rest;
  }

  /** `ParseUnicode` once the hex run and the closing brace are located. */
  lemma UnicodeAt(i: string, n: nat)
    requires 0 < n && 3 + n <= |i| && i[0] == 'u' && i[1] == '{' && i[2 + n] == '}'
    requires HexRunLen(i[2..], 6) == n && AllHex(i[2..2 + n])
    ensures IsScalarValue(HexNumber(i[2..2 + n])) ==>
      ParseUnicode(i) == Parsed(i[3 + n..], HexNumber(i[2..2 + n]) as char)
    ensures !IsScalarValue(HexNumber(i[2..2 + n])) ==> ParseUnicode(i) == Failed
  {
  }

  /** Seven hex digits are one too many: the closing brace is not where it must be. */
  lemma SevenHexDigitsFail(i: string)
    requires |i| >= 9 && i[0] == 'u' && i[1] == '{'
    requires forall k :: 2 <= k < 9 ==> IsHexDigit(i[k])
    ensures ParseUnicode(i) == Failed
  {
    var s := i[2..];
    assert forall k :: 0 <= k < 7 ==> IsHexDigit(s[k]);
    assert HexRunLen(s, 6) == 6;
    assert IsHexDigit(i[8]);
  }

  lemma HexNumberSnoc(h: string, c: char)
    requires AllHex(h) && IsHexDigit(c)
    ensures AllHex(h + [c]) && HexNumber(h + [c]) == HexNumber(h) * 16 + HexValue(c)
  {
    assert (h + [c])[..|h|] == h;
  }

  lemma EmojiHex() returns (h: string)
    ensures h == "1F602" && AllHex(h) && HexNumber(h) == 0x1F602
  {
    var h0 := "";
    HexNumberSnoc(h0, '1');
    var h1 := h0 + ['1'];
    HexNumberSnoc(h1, 'F');
    var h2 := h1 + ['F'];
    HexNumberSnoc(h2, '6');
    var h3 := h2 + ['6'];
    HexNumberSnoc(h3, '0');
    var h4 := h3 + ['0'];
    HexNumberSnoc(h4, '2');
    h := h4 + ['2'];
  }

  lemma SurrogateHex() returns (h: string)
    ensures h == "D800" && AllHex(h) && HexNumber(h) == 0xD800
  {
    var h0 := "";
    HexNumberSnoc(h0, 'D');
    var h1 := h0 + ['D'];
    HexNumberSnoc(h1, '8');
    var h2 := h1 + ['8'];
    HexNumberSnoc(h2, '0');
    var h3 := h2 + ['0'];
    HexNumberSnoc(h3, '0');
    h := h3 + ['0'];
  }

  /** The test of string.rs: `u{1F602}` is the code point U+1F602. */
  lemma UnicodeEmoji()
    ensures ParseUnicode("u{1F602}") == Parsed("", '\U{1F602}')
  {
    var h := EmojiHex();
    UnicodeEscape(h, "");
    assert "u{" + h + "}" + "" == "u{1F602}";
  }

  /** A surrogate code point is rejected. */
  lemma UnicodeSurrogateFails()
    ensures ParseUnicode("u{D800}") == Failed
  {
    var h := SurrogateHex();
    UnicodeEscape(h, "");
    assert "u{" + h + "}" + "" == "u{D800}";
  }

  /** A backslash and a whitespace run contribute nothing to the decoded string. */
  lemma EscapedWhitespaceElided(ws: string, t: string, acc: string)
    requires ws != [] && forall k :: 0 <= k < |ws| ==> IsMultispace(ws[k])
    requires t == [] || !IsMultispace(t[0])
    ensures BuildString("\\" + ws + t, acc) == BuildString(t, acc)
  {
    var i := "\\" + ws + t;
    assert i[0] == '\\' && i[1] == ws[0];
    assert ParseLiteral(i).Failed?;
    assert ParseEscapedChar(i).Failed? by {
      assert ParseUnicode(i[1..]).Failed?;
      assert EscapeLetter(i[1]).None?;
    }
    assert ParseEscapedWhitespace(i) == Parsed(t, ()) by {
      assert i[1..] == ws + t;
      WsRunOf(ws, t);
      assert i[1 + |ws|..] == t;
    }
    assert BuildString(i, acc) == BuildString(t, acc + "") by {
      BuildStringStep(i, acc);
    }
    assert acc + "" == acc;
  }

  /** A non-empty plain run before a quote or backslash is one literal step of the fold. */
  lemma LiteralStep(p: string, j: string, acc: string)
    requires IsPlain(p) && p != [] && j != [] && (j[0] == '"' || j[0] == '\\')
    ensures BuildString(p + j, acc) == BuildString(j, acc + p)
  {
    LiteralLenPlain(p, j);
    assert (p + j)[|p|..] == j && (p + j)[..|p|] == p;
    assert ParseFragment(p + j) == Parsed(j, Literal(p));
    BuildStringStep(p + j, acc);
  }

  lemma {:induction false} WsRunOf(ws: string, t: string)
    requires forall k :: 0 <= k < |ws| ==> IsMultispace(ws[k])
    requires t == [] || !IsMultispace(t[0])
    ensures WsRunLen(ws + t) == |ws|
    decreases |ws|
  {
    if ws == [] {
      assert ws + t == t;
    } else {
      assert (ws + t)[1..] == ws[1..] + t;
      WsRunOf(ws[1..], t);
    }
  }

  /** Whether a backslash followed by `t` starts any fragment. */
  predicate StartsEscape(t: string) {
    t != [] && (EscapeLetter(t[0]).Some? || IsMultispace(t[0]) || ParseUnicode(t).Parsed?)
  }

  /** `t` cannot extend a token: it is empty or starts with a quote or a backslash. */
  predicate StopsToken(t: string) {
    t == [] || t[0] == '"' || t[0] == '\\'
  }

  lemma {:induction false} HexRunLenExtend(s: string, t: string, cap: nat)
    requires StopsToken(t)
    ensures HexRunLen(s + t, cap) == HexRunLen(s, cap)
    decreases |s|
  {
    if s == [] {
      assert s + t == t;
    } else if cap > 0 && IsHexDigit(s[0]) {
      assert (s + t)[1..] == s[1..] + t;
      HexRunLenExtend(s[1..], t, cap - 1);
    }
  }

  lemma {:induction false} WsRunLenExtend(s: string, t: string)
    requires StopsToken(t)
    ensures WsRunLen(s + t) == WsRunLen(s)
    decreases |s|
  {
    if s == [] {
      assert s + t == t;
    } else if IsMultispace(s[0]) {
      assert (s + t)[1..] == s[1..] + t;
      WsRunLenExtend(s[1..], t);
    }
  }

  lemma {:induction false} LiteralLenExtend(s: string, t: string)
    requires StopsToken(t)
    ensures LiteralLen(s + t) == LiteralLen(s)
    decreases |s|
  {
    if s == [] {
      assert s + t == t;
    } else if s[0] != '"' && s[0] != '\\' {
      assert (s + t)[1..] == s[1..] + t;
      LiteralLenExtend(s[1..], t);
    }
  }

  /** What follows a `u{..}` escape does not change how it parses, if it cannot extend it. */
  lemma UnicodeExtend(s: string, t: string)
    requires StopsToken(t)
    ensures ParseUnicode(s).Parsed? ==>
      ParseUnicode(s + t) == Parsed(ParseUnicode(s).rest + t, ParseUnicode(s).value)
    ensures ParseUnicode(s).Failed? ==> ParseUnicode(s + t).Failed?
  {
    var i := s + t;
    if |s| >= 2 && s[0] == 'u' && s[1] == '{' {
      assert i[2..] == s[2..] + t;
      HexRunLenExtend(s[2..], t, 6);
      var n := HexRunLen(s[2..], 6);
      if 2 + n < |s| {
        assert i[2..2 + n] == s[2..2 + n];
        assert i[3 + n..] == s[3 + n..] + t;
      }
    }
  }

  lemma LiteralExtend(y: string, t: string)
    requires StopsToken(t) && y != []
    ensures ParseLiteral(y).Parsed? ==>
      ParseLiteral(y + t) == Parsed(ParseLiteral(y).rest + t, ParseLiteral(y).value)
    ensures ParseLiteral(y).Failed? ==> ParseLiteral(y + t).Failed?
  {
    LiteralLenExtend(y, t);
    var n := LiteralLen(y);
    assert (y + t)[..n] == y[..n];
    assert (y + t)[n..] == y[n..] + t;
  }

  lemma EscapedCharExtend(y: string, t: string)
    requires StopsToken(t) && |y| >= 2
    ensures ParseEscapedChar(y).Parsed? ==>
      ParseEscapedChar(y + t) == Parsed(ParseEscapedChar(y).rest + t, ParseEscapedChar(y).value)
    ensures ParseEscapedChar(y).Failed? ==> ParseEscapedChar(y + t).Failed?
  {
    assert (y + t)[1..] == y[1..] + t;
    assert (y + t)[2..] == y[2..] + t;
    UnicodeExtend(y[1..], t);
  }

  lemma EscapedWhitespaceExtend(y: string, t: string)
    requires StopsToken(t) && ParseEscapedWhitespace(y).Parsed?
    ensures ParseEscapedWhitespace(y + t) == Parsed(ParseEscapedWhitespace(y).rest + t, ())
  {
    assert (y + t)[1..] == y[1..] + t;
    WsRunLenExtend(y[1..], t);
    var w := WsRunLen(y[1..]);
    assert (y + t)[1 + w..] == y[1 + w..] + t;
  }

  /**
   * A fragment is parsed the same way when followed by text that cannot
   * extend it: the fragment of `y + t` is that of `y`, and `t` follows it.
   */
  lemma FragmentExtend(y: string, t: string)
    requires StopsToken(t) && ParseFragment(y).Parsed?
    ensures ParseFragment(y + t) == Parsed(ParseFragment(y).rest + t, ParseFragment(y).value)
  {
    LiteralExtend(y, t);
    if ParseLiteral(y).Failed? {
      if ParseEscapedChar(y).Parsed? {
        EscapedCharExtend(y, t);
      } else {
        assert ParseEscapedWhitespace(y).Parsed?;
        EscapedCharExtend(y, t);
        EscapedWhitespaceExtend(y, t);
      }
    }
  }

  /**
   * A prefix the fold consumes completely is folded the same way when
   * followed by text that cannot extend its last fragment.
   */
  lemma {:induction false} BuildStringExtend(x: string, t: string, acc: string)
    requires StopsToken(t) && BuildString(x, acc).0 == []
    ensures BuildString(x + t, acc) == BuildString(t, BuildString(x, acc).1)
    decreases |x|
  {
    if x == [] {
      assert x + t == t;
    } else {
      var pf := ParseFragment(x);
      assert pf.Parsed?;
      FragmentExtend(x, t);
      BuildStringStep(x, acc);
      BuildStringStep(x + t, acc);
      BuildStringExtend(pf.rest, t, acc + Contribution(pf.value));
    }
  }

  /** A backslash that starts no escape starts no fragment. */
  lemma BadEscapeStops(t: string)
    requires !StartsEscape(t)
    ensures ParseFragment("\\" + t).Failed?
  {
    var j := "\\" + t;
    assert j[1..] == t;
  }

  /** The fold over a consumed prefix stops at a bad escape after it. */
  lemma BadEscapeFold(x: string, t: string)
    requires BuildString(x, "").0 == [] && !StartsEscape(t)
    ensures BuildString(x + ("\\" + t), "") == ("\\" + t, BuildString(x, "").1)
  {
    var j := "\\" + t;
    BadEscapeStops(t);
    BuildStringExtend(x, j, "");
    BuildStringDone(j, BuildString(x, "").1);
  }

  /**
   * A backslash that starts neither an escape letter, a `u{..}` escape nor
   * escaped whitespace makes the whole string fail, whatever fragments come
   * before it: the fold stops at that backslash, and the closing quote the
   * string needs is not there.
   */
  lemma BadEscapeFails(x: string, t: string)
    requires BuildString(x, "").0 == [] && !StartsEscape(t)
    ensures ParseString("\"" + x + "\\" + t) == Failed
  {
    var j := "\\" + t;
    var y := x + j;
    assert "\"" + x + "\\" + t == "\"" + y by {
      Assoc("\"", x, j);
      Assoc(x, "\\", t);
      Assoc("\"", x + "\\", t);
    }
    assert ("\"" + y)[1..] == y;
    BadEscapeFold(x, t);
    assert j[0] != '"';
  }

  /** A string whose fragments run to the end of the input, with no closing quote, fails. */
  lemma UnterminatedFails(x: string)
    requires BuildString(x, "").0 == []
    ensures ParseString("\"" + x) == Failed
  {
    assert ("\"" + x)[1..] == x;
  }

  /** A plain run is consumed completely by the fold. */
  lemma PlainConsumed(p: string)
    requires IsPlain(p)
    ensures BuildString(p, "") == ([], p)
  {
    if p != [] {
      var n := LiteralLen(p);
      assert n == |p|;
      assert p[n..] == [] && p[..n] == p;
      assert ParseLiteral(p) == Parsed([], p);
      BuildStringStep(p, "");
      BuildStringDone([], "" + p);
      assert "" + p == p;
    }
  }

  /** `"\n\q"`: an unknown escape after a known one still fails the string. */
  lemma BadEscapeAfterEscape()
    ensures ParseString("\"\\n\\q\"") == Failed
  {
    var x := "\\n";
    assert ParseFragment(x) == Parsed("", EscapedChar('\n')) by {
      assert ParseUnicode(x[1..]).Failed?;
    }
    BuildStringStep(x, "");
    BuildStringDone("", "" + ['\n']);
    assert !StartsEscape("q\"") by {
      assert ParseUnicode("q\"").Failed?;
    }
    BadEscapeFails(x, "q\"");
    assert "\"" + x + "\\" + "q\"" == "\"\\n\\q\"";
  }

  // ---------------------------------------------------------------------
  // Escaping, and the round trip it completes

  function EscapeChar(c: char): string {
    if c == '"' || c == '\\' then ['\\', c] else [c]
  }

  /**
   * Writes `s` so that the string parser gives it back: a backslash before
   * each quote and each backslash, every other character verbatim.
   */
  function Escape(s: string): (e: string)
    ensures |e| >= |s|
  {
    if s == [] then [] else EscapeChar(s[0]) + Escape(s[1..])
  }

  /** A pending plain run before the closing quote is the fold's last step. */
  lemma PlainThenQuote(p: string, q: string, acc: string)
    requires IsPlain(p) && q != [] && q[0] == '"'
    ensures BuildString(p + q, acc) == (q, acc + p)
  {
    assert ParseFragment(q).Failed?;
    BuildStringDone(q, acc + p);
    if p == [] {
      assert p + q == q && acc + p == acc;
    } else {
      LiteralStep(p, q, acc);
    }
  }

  /** A pending plain run, then an escaped quote or backslash: two steps of the fold. */
  lemma PlainThenEscaped(p: string, c: char, rest: string, acc: string)
    requires IsPlain(p) && (c == '"' || c == '\\')
    ensures BuildString(p + ['\\', c] + rest, acc) == BuildString(rest, acc + p + [c])
  {
    var j := ['\\', c] + rest;
    assert p + ['\\', c] + rest == p + j;
    assert j[1..][0] != 'u' && j[2..] == rest;
    assert ParseFragment(j) == Parsed(rest, EscapedChar(c));
    BuildStringStep(j, acc + p);
    if p == [] {
      assert p + j == j && acc + p == acc;
    } else {
      LiteralStep(p, j, acc);
    }
  }

  /**
   * The fold, run over a pending plain run `p`, then the escaped form of
   * `s`, then a closing quote, stops at that quote having appended `p + s`.
   */
  lemma {:induction false} BuildEscaped(p: string, s: string, q: string, acc: string)
    requires IsPlain(p) && q != [] && q[0] == '"'
    ensures BuildString(p + Escape(s) + q, acc) == (q, acc + (p + s))
    decreases |s|, 1
  {
    if s == [] {
      assert p + Escape(s) + q == p + q;
      PlainThenQuote(p, q, acc);
      assert p + s == p;
    } else if s[0] != '"' && s[0] != '\\' {
      BuildEscapedPlain(p, s, q, acc);
    } else {
      BuildEscapedSpecial(p, s, q, acc);
    }
  }

  /** `BuildEscaped` when `s` starts with a character written verbatim. */
  lemma {:induction false} BuildEscapedPlain(p: string, s: string, q: string, acc: string)
    requires IsPlain(p) && q != [] && q[0] == '"'
    requires s != [] && s[0] != '"' && s[0] != '\\'
    ensures BuildString(p + Escape(s) + q, acc) == (q, acc + (p + s))
    decreases |s|, 0
  {
    RegroupPlain(p, s, q);
    BuildEscaped(p + [s[0]], s[1..], q, acc);
    AccRegroup(acc, p, s);
  }

  /** `BuildEscaped` when `s` starts with a quote or a backslash. */
  lemma {:induction false} BuildEscapedSpecial(p: string, s: string, q: string, acc: string)
    requires IsPlain(p) && q != [] && q[0] == '"'
    requires s != [] && (s[0] == '"' || s[0] == '\\')
    ensures BuildString(p + Escape(s) + q, acc) == (q, acc + (p + s))
    decreases |s|, 0
  {
    RegroupEscaped(p, s, q);
    PlainThenEscaped(p, s[0], Escape(s[1..]) + q, acc);
    EmptyPrefix(Escape(s[1..]));
    EmptyPrefix(s[1..]);
    BuildEscaped([], s[1..], q, acc + p + [s[0]]);
    AccRegroup(acc, p, s);
  }

  lemma RegroupPlain(p: string, s: string, q: string)
    requires s != [] && s[0] != '"' && s[0] != '\\'
    ensures p + Escape(s) + q == (p + [s[0]]) + Escape(s[1..]) + q
  {
    assert Escape(s) == [s[0]] + Escape(s[1..]);
    Assoc(p, [s[0]], Escape(s[1..]));
  }

  lemma RegroupEscaped(p: string, s: string, q: string)
    requires s != [] && (s[0] == '"' || s[0] == '\\')
    ensures p + Escape(s) + q == p + ['\\', s[0]] + (Escape(s[1..]) + q)
  {
    assert Escape(s) == ['\\', s[0]] + Escape(s[1..]);
  }

  lemma EmptyPrefix(x: string)
    ensures [] + x == x
  {
  }

  lemma AccRegroup(acc: string, p: string, s: string)
    requires s != []
    ensures acc + ((p + [s[0]]) + s[1..]) == acc + (p + s)
    ensures (acc + p + [s[0]]) + s[1..] == acc + (p + s)
  {
    assert s == [s[0]] + s[1..];
  }

  /** Parsing the quoted, escaped form of any string gives the string back. */
  lemma EscapeRoundTrip(s: string, tail: string)
    ensures ParseString("\"" + Escape(s) + "\"" + tail) == Parsed(tail, s)
  {
    var i := "\"" + Escape(s) + "\"" + tail;
    var q := "\"" + tail;
    assert BuildString(i[1..], "") == (q, s) by {
      assert i[1..] == [] + Escape(s) + q;
      BuildEscaped([], s, q, "");
      EmptyPrefix(s);
      EmptyPrefix([] + s);
    }
    assert i[0] == '"' && q[1..] == tail;
  }

  /** A string with no quote and no backslash, between quotes, parses to itself. */
  lemma PlainRoundTrip(s: string, tail: string)
    requires IsPlain(s)
    ensures ParseString("\"" + s + "\"" + tail) == Parsed(tail, s)
  {
    var i := "\"" + s + "\"" + tail;
    var q := "\"" + tail;
    assert i[1..] == s + q;
    PlainThenQuote(s, q, "");
    assert "" + s == s;
  }
}
