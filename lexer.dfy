/*
 * The lexical recognizers of src/parser.rs: bare and quoted keys, line and
 * block comments and the separators of a key-value line, together with the
 * recognizers the deserializer uses for ignored runs, `null`, booleans and
 * numbers.
 */
module Lexer {
  import opened Base
  import opened StringLit

  /** Within `s`, the pattern " " occurs exactly where `s` has a space. */
  lemma SpaceOccurs(s: string)
    ensures forall j :: 0 <= j < |s| ==> (OccursAt(s, " ", j) <==> s[j] == ' ')
  {
    forall j | 0 <= j < |s| ensures OccursAt(s, " ", j) <==> s[j] == ' ' {
      assert s[j..j + 1] == [s[j]];
    }
  }

  /** A bare key: everything before the first space. */
  function Id(i: string): (r: PResult<string>)
    ensures r.Parsed? <==> ' ' in i
    ensures r.Parsed? ==> i == r.value + r.rest && r.rest != [] && r.rest[0] == ' '
    ensures r.Parsed? ==> ' ' !in r.value
  {
    SpaceOccurs(i);
    match Find(i, " ")
    case None => Failed
    case Some(k) =>
      assert i == i[..k] + i[k..];
      Parsed(i[k..], i[..k])
  }

  /** A key is a quoted string if one parses, otherwise a bare key. */
  function Key(i: string): (r: PResult<string>)
    ensures r.Parsed? ==> |r.rest| <= |i|
    ensures r.Parsed? && |r.rest| == |i| ==> i != [] && i[0] == ' '
  {
    match ParseString(i)
    case Parsed(rest, s) => Parsed(rest, s)
    case Failed => Id(i)
  }

  predicate IsLineEnding(c: char) {
    c == '\r' || c == '\n'
  }

  /** Length of the longest prefix of `s` without a carriage return or line feed. */
  function LineRunLen(s: string): (n: nat)
    ensures n <= |s|
    ensures forall k :: 0 <= k < n ==> !IsLineEnding(s[k])
    ensures n < |s| ==> IsLineEnding(s[n])
  {
    if |s| == 0 || IsLineEnding(s[0]) then 0 else 1 + LineRunLen(s[1..])
  }

  /** `//` followed by at least one character up to the end of the line. */
  function LineComment(i: string): (r: PResult<()>)
    ensures r.Parsed? ==> |r.rest| + 3 <= |i| && StartsWith(i, "//")
    ensures r.Parsed? ==> r.rest == [] || IsLineEnding(r.rest[0])
    ensures r.Failed? <==> !StartsWith(i, "//") || |i| == 2 || IsLineEnding(i[2])
  {
    if !StartsWith(i, "//") then Failed
    else
      var n := LineRunLen(i[2..]);
      if n == 0 then Failed else Parsed(i[2 + n..], ())
  }

  // A slash and a star, then everything up to the first star-slash, then that star-slash.
  function BlockComment(i: string): (r: PResult<()>)
    ensures r.Parsed? ==> |r.rest| + 4 <= |i| && StartsWith(i, "/*")
  {
    if !StartsWith(i, "/*") then Failed
    else
      match Find(i[2..], "*/")
      case None => Failed
      case Some(k) => Parsed(i[2..][k + 2..], ())
  }

  /** A line comment, or failing that a block comment. */
  function StripComments(i: string): (r: PResult<()>)
    ensures r.Parsed? ==> |r.rest| < |i|
    ensures r.Parsed? ==> StartsWith(i, "//") || StartsWith(i, "/*")
  {
    match LineComment(i)
    case Parsed(rest, u) => Parsed(rest, u)
    case Failed => BlockComment(i)
  }

  /** nom's `multispace0`: drops the leading whitespace run. */
  function SkipSpace(i: string): (r: string)
    ensures |r| <= |i| && (r == [] || !IsMultispace(r[0]))
  {
    i[WsRunLen(i)..]
  }

  /** The separator around a key: whitespace, one comment, whitespace. */
  function Separator(i: string): (r: PResult<()>)
    ensures r.Parsed? ==> |r.rest| < |i|
    ensures r.Parsed? ==> r.rest == [] || !IsMultispace(r.rest[0])
    ensures r.Parsed? ==> StartsWith(SkipSpace(i), "//") || StartsWith(SkipSpace(i), "/*")
  {
    match StripComments(SkipSpace(i))
    case Parsed(rest, _) => Parsed(SkipSpace(rest), ())
    case Failed => Failed
  }

  /**
   * The part of a key-value line that is defined: a separator, the key and
   * the separator before the value. The value parser itself does not exist.
   */
  function KeyValueHead(i: string): (r: PResult<string>)
    ensures r.Parsed? ==> |r.rest| + 2 <= |i|
    ensures r.Parsed? ==> StartsWith(SkipSpace(i), "//") || StartsWith(SkipSpace(i), "/*")
    ensures r.Parsed? ==> r.rest == [] || !IsMultispace(r.rest[0])
  {
    match Separator(i)
    case Failed => Failed
    case Parsed(a, _) =>
      match Key(a)
      case Failed => Failed
      case Parsed(b, k) =>
        match Separator(b)
        case Failed => Failed
        case Parsed(c, _) => Parsed(c, k)
  }

  /** Characters the deserializer skips between tokens. */
  predicate IsIgnorable(c: char) {
    IsMultispace(c) || c == ','
  }

  /**
   * The deserializer's `all_ignored`: whitespace, commas and comments, as
   * many as there are. It never fails.
   */
  function AllIgnored(i: string): (r: string)
    ensures |r| <= |i|
    ensures r == [] || (!IsIgnorable(r[0]) && StripComments(r).Failed?)
    decreases |i|
  {
    if i == [] then []
    else if IsIgnorable(i[0]) then AllIgnored(i[1..])
    else
      match StripComments(i)
      case Parsed(rest, _) => AllIgnored(rest)
      case Failed => i
  }

  /** The literal `null`. */
  function Unit(i: string): (r: PResult<()>)
    ensures r.Parsed? <==> StartsWith(i, "null")
    ensures r.Parsed? ==> i == "null" + r.rest
  {
    if StartsWith(i, "null") then
      assert i == i[..4] + i[4..];
      Parsed(i[4..], ())
    else Failed
  }

  /** The literals `true` and `false`. */
  function Bool(i: string): (r: PResult<bool>)
    ensures r.Parsed? <==> StartsWith(i, "true") || StartsWith(i, "false")
    ensures r.Parsed? && r.value ==> i == "true" + r.rest
    ensures r.Parsed? && !r.value ==> i == "false" + r.rest
  {
    if StartsWith(i, "true") then
      assert i == i[..4] + i[4..];
      Parsed(i[4..], true)
    else if StartsWith(i, "false") then
      assert i == i[..5] + i[5..];
      Parsed(i[5..], false)
    else Failed
  }

  predicate AllDigits(d: string) {
    forall k :: 0 <= k < |d| ==> IsDigit(d[k])
  }

  /** Length of the run of decimal digits at the head of `s`. */
  function DigitRunLen(s: string): (n: nat)
    ensures n <= |s| && AllDigits(s[..n])
    ensures n < |s| ==> !IsDigit(s[n])
  {
    if |s| == 0 || !IsDigit(s[0]) then 0
    else
      var m := DigitRunLen(s[1..]);
      assert s[..1 + m] == [s[0]] + s[1..][..m];
      1 + m
  }

  /** The value of a decimal digit string. */
  function DigitsValue(d: string): nat
    requires AllDigits(d)
  {
    if d == [] then 0 else 10 * DigitsValue(d[..|d| - 1]) + DigitValue(d[|d| - 1])
  }

  function Pow10(k: nat): (p: nat)
    ensures p >= 1
  {
    if k == 0 then 1 else 10 * Pow10(k - 1)
  }

  /**
   * A decimal number: an optional minus sign, one or more digits and an
   * optional fraction of one or more digits, read as an exact rational.
   */
  function Number(i: string): (r: PResult<real>)
    ensures r.Parsed? ==> |r.rest| < |i|
    ensures r.Parsed? <==>
      (|i| > 0 && IsDigit(i[0])) || (|i| > 1 && i[0] == '-' && IsDigit(i[1]))
  {
    if |i| > 0 && i[0] == '-' then
      match Unsigned(i[1..])
      case Parsed(rest, x) => Parsed(rest, -x)
      case Failed => Failed
    else Unsigned(i)
  }

  /** Digits and an optional fraction, without a sign. */
  function Unsigned(j: string): (r: PResult<real>)
    ensures r.Parsed? ==> |r.rest| < |j|
    ensures r.Parsed? <==> |j| > 0 && IsDigit(j[0])
  {
    var n := DigitRunLen(j);
    if n == 0 then Failed
    else Parsed(FractionRest(j[n..]), DigitsValue(j[..n]) as real + FractionValue(j[n..]))
  }

  /** The digits of a fraction `.ddd` at the head of `t`, or none. */
  function FractionLen(t: string): (m: nat)
    ensures m > 0 ==> 1 + m <= |t| && AllDigits(t[1..][..m])
  {
    if |t| >= 2 && t[0] == '.' then DigitRunLen(t[1..]) else 0
  }

  function FractionValue(t: string): real {
    var m := FractionLen(t);
    if m > 0 then DigitsValue(t[1..][..m]) as real / Pow10(m) as real else 0.0
  }

  function FractionRest(t: string): (r: string)
    ensures |r| <= |t|
  {
    var m := FractionLen(t);
    if m > 0 then t[1 + m..] else t
  }

  /** Decimal digits of a natural number, most significant first. */
  function NatText(n: nat): (d: string)
    ensures d != [] && AllDigits(d)
    decreases n
  {
    var c := ('0' as int + n % 10) as char;
    if n < 10 then [c] else NatText(n / 10) + [c]
  }

  /** The decimal text of an integer. */
  function IntText(n: int): string {
    if n < 0 then "-" + NatText(-n) else NatText(n)
  }

  // ---- Properties of the key and comment recognizers ----

  /** `Id` stops at the first space, wherever it is. */
  lemma IdAt(i: string, k: nat)
    requires k < |i| && i[k] == ' ' && ' ' !in i[..k]
    ensures Id(i) == Parsed(i[k..], i[..k])
  {
    SpaceOccurs(i);
    assert OccursAt(i, " ", k);
    forall j | 0 <= j < k ensures !OccursAt(i, " ", j) {
      assert i[..k][j] == i[j];
    }
  }

  /** A bare key is everything before the first space. */
  lemma KeyBare(s: string, t: string)
    requires ' ' !in s && ParseString(s + " " + t).Failed?
    ensures Key(s + " " + t) == Parsed(" " + t, s)
  {
    var i := s + " " + t;
    assert Id(i) == Parsed(" " + t, s) by {
      assert i[..|s|] == s;
      IdAt(i, |s|);
      assert i[|s|..] == " " + t;
    }
  }

  /** A quoted key decodes its escapes and may contain spaces. */
  lemma KeyQuoted(s: string, tail: string)
    ensures Key("\"" + Escape(s) + "\"" + tail) == Parsed(tail, s)
  {
    EscapeRoundTrip(s, tail);
  }

  lemma BareKeyExample()
    ensures Key("my-key" + " " + "2") == Parsed(" " + "2", "my-key")
  {
    assert ' ' !in "my-key";
    assert ("my-key" + " " + "2")[0] != '"';
    KeyBare("my-key", "2");
  }

  /**
   * An opening quote with no closing one: the string alternative fails and
   * the key is re-read bare, quote included, up to the first space.
   */
  lemma UnterminatedKeyExample()
    ensures Key("\"my" + " " + "key 2") == Parsed(" " + "key 2", "\"my")
  {
    assert ' ' !in "\"my";
    UnterminatedKeyFails();
    KeyBare("\"my", "key 2");
  }

  lemma UnterminatedKeyFails()
    ensures ParseString("\"my" + " " + "key 2").Failed?
  {
    var p := UnterminatedKeyBody();
    PlainConsumed(p);
    UnterminatedFails(p);
  }

  lemma UnterminatedKeyBody() returns (p: string)
    ensures IsPlain(p) && "\"" + p == "\"my" + " " + "key 2"
  {
    p := "my key 2";
    assert IsPlain(p);
  }

  lemma QuotedKeyExample()
    ensures Key("\"" + "my key" + "\"" + " 2") == Parsed(" 2", "my key")
  {
    assert IsPlain("my key");
    PlainRoundTrip("my key", " 2");
  }

  lemma {:induction false} LineRunOf(body: string, t: string)
    requires forall k :: 0 <= k < |body| ==> !IsLineEnding(body[k])
    requires t == [] || IsLineEnding(t[0])
    ensures LineRunLen(body + t) == |body|
    decreases |body|
  {
    if body == [] {
      assert body + t == t;
    } else {
      assert (body + t)[1..] == body[1..] + t;
      LineRunOf(body[1..], t);
    }
  }

  /** A line comment runs to the line ending and leaves it in place. */
  lemma LineCommentOf(body: string, t: string)
    requires body != [] && '\r' !in body && '\n' !in body
    requires t == [] || IsLineEnding(t[0])
    ensures LineComment("//" + body + t) == Parsed(t, ())
  {
    var i := "//" + body + t;
    assert i[..2] == "//";
    assert i[2..] == body + t;
    assert forall k :: 0 <= k < |body| ==> body[k] in body;
    LineRunOf(body, t);
    assert i[2 + |body|..] == t;
  }

  lemma LineCommentExamples()
    ensures LineComment("//" + " blah" + "") == Parsed("", ())
    ensures LineComment("//" + " this is a comment" + "\ntext") == Parsed("\ntext", ())
  {
    LineCommentOf(" blah", "");
    LineCommentOf(" this is a comment", "\ntext");
  }

  /** `body` holds no star-slash. */
  predicate NoCommentEnd(body: string) {
    forall j :: 0 <= j < |body| ==> !OccursAt(body, "*/", j)
  }

  /**
   * A block comment ends at the first star-slash after its opening, even if
   * another opening lies in between: block comments do not nest.
   */
  lemma BlockCommentOf(body: string, t: string)
    requires NoCommentEnd(body)
    ensures BlockComment("/*" + body + "*/" + t) == Parsed(t, ())
  {
    var i := "/*" + body + "*/" + t;
    var u := body + "*/" + t;
    assert i[..2] == "/*";
    assert i[2..] == u;
    assert OccursAt(u, "*/", |body|) by {
      assert u[|body|..|body| + 2] == "*/";
    }
    forall j | 0 <= j < |body| ensures !OccursAt(u, "*/", j) {
      if j + 2 <= |body| {
        assert u[j..j + 2] == body[j..j + 2];
        assert !OccursAt(body, "*/", j);
      } else {
        assert u[j + 1] == '*';
      }
    }
    assert u[|body| + 2..] == t;
  }

  /** No star-slash can occur in a text without a star. */
  lemma NoStarIsNoEnd(body: string)
    requires '*' !in body
    ensures NoCommentEnd(body)
  {
    forall j | 0 <= j < |body| ensures !OccursAt(body, "*/", j) {
      if j + 2 <= |body| {
        assert body[j..j + 2][0] == body[j];
        assert body[j] in body;
      }
    }
  }

  lemma BlockCommentExamples()
    ensures BlockComment("/*" + " moo " + "*/" + "\nhello world") == Parsed("\nhello world", ())
    ensures BlockComment("/*" + " moo\n\n\t\r " + "*/" + "\nhello world") == Parsed("\nhello world", ())
    ensures BlockComment("/*" + " moo\nhello") == Failed
  {
    NoStarIsNoEnd(" moo\nhello");
    assert ("/*" + " moo\nhello")[2..] == " moo\nhello";
    NoStarIsNoEnd(" moo ");
    BlockCommentOf(" moo ", "\nhello world");
    NoStarIsNoEnd(" moo\n\n\t\r ");
    BlockCommentOf(" moo\n\n\t\r ", "\nhello world");
  }

  /** An inner opening does not nest: the first star-slash closes the comment. */
  lemma BlockCommentNotNested(a: string, b: string, t: string)
    requires NoCommentEnd(a + "/*" + b)
    ensures BlockComment("/*" + a + "/*" + b + "*/" + t) == Parsed(t, ())
  {
    BlockCommentOf(a + "/*" + b, t);
    assert "/*" + (a + "/*" + b) + "*/" + t == "/*" + a + "/*" + b + "*/" + t;
  }

  /** Whitespace alone never separates a key from its value: a comment is required. */
  lemma SeparatorNeedsComment(ws: string)
    requires forall k :: 0 <= k < |ws| ==> IsMultispace(ws[k])
    ensures Separator(ws) == Failed
  {
    WsRunOf(ws, []);
    assert ws + [] == ws;
  }

  /**
   * Comments around a bare key: `/*beep*/ hello //world` yields the key
   * `hello` and leaves nothing for the value.
   */
  lemma AdhocKeyValueHead()
    ensures KeyValueHead("/*" + "beep" + "*/" + (" " + ("hello" + " " + ("//" + "world" + ""))))
         == Parsed("", "hello")
  {
    AdhocOpening();
    KeyBare("hello", "//" + "world" + "");
    AdhocClosing();
  }

  lemma AdhocOpening()
    ensures Separator("/*" + "beep" + "*/" + (" " + ("hello" + " " + ("//" + "world" + ""))))
         == Parsed("hello" + " " + ("//" + "world" + ""), ())
  {
    var k := "hello" + " " + ("//" + "world" + "");
    var t := " " + k;
    var i := "/*" + "beep" + "*/" + t;
    assert WsRunLen(i) == 0;
    NoStarIsNoEnd("beep");
    BlockCommentOf("beep", t);
    WsRunOf(" ", k);
  }

  lemma AdhocClosing()
    ensures Separator(" " + ("//" + "world" + "")) == Parsed("", ())
  {
    var c := "//" + "world" + "";
    WsRunOf(" ", c);
    assert (" " + c)[1..] == c;
    LineCommentOf("world", "");
  }

  // ---- Properties of the ignored-run, literal and number recognizers ----

  /** Skipping the ignored run a second time skips nothing. */
  lemma AllIgnoredIdempotent(i: string)
    ensures AllIgnored(AllIgnored(i)) == AllIgnored(i)
  {
    var r := AllIgnored(i);
    if r != [] {
      assert !IsIgnorable(r[0]) && StripComments(r).Failed?;
    }
  }

  /** What a key leaves is a suffix of the input. */
  lemma KeySuffix(i: string)
    requires Key(i).Parsed?
    ensures IsSuffix(Key(i).rest, i)
  {
    if ParseString(i).Parsed? {
      ParseStringRest(i);
    } else {
      var r := Id(i);
      assert r.rest == i[|r.value|..];
    }
  }

  /** What a number leaves is a suffix of the input. */
  lemma NumberSuffix(i: string)
    requires Number(i).Parsed?
    ensures IsSuffix(Number(i).rest, i)
  {
    if |i| > 0 && i[0] == '-' {
      UnsignedSuffix(i[1..]);
      SuffixTrans(Number(i).rest, i[1..], i);
    } else {
      UnsignedSuffix(i);
    }
  }

  lemma UnsignedSuffix(j: string)
    requires Unsigned(j).Parsed?
    ensures IsSuffix(Unsigned(j).rest, j)
  {
    var n := DigitRunLen(j);
    var m := FractionLen(j[n..]);
    if m > 0 {
      assert j[n..][1 + m..] == j[n + 1 + m..];
    }
  }

  /**
   * `strip_comments` tries the line comment first and the block comment
   * only when that fails; it fails when neither matches.
   */
  lemma StripCommentsOrder(i: string)
    ensures StripComments(i).Parsed? <==> LineComment(i).Parsed? || BlockComment(i).Parsed?
    ensures LineComment(i).Parsed? ==> StripComments(i) == LineComment(i)
    ensures LineComment(i).Failed? ==> StripComments(i) == BlockComment(i)
  {
  }

  /** A block comment fails exactly when there is no opening or no star-slash after it. */
  lemma BlockCommentFails(i: string)
    ensures BlockComment(i).Failed? <==> !StartsWith(i, "/*") || NoCommentEnd(i[2..])
  {
  }

  /** The ignored run stops at once where nothing can be skipped. */
  lemma AllIgnoredStops(t: string)
    requires t == [] || (!IsIgnorable(t[0]) && StripComments(t).Failed?)
    ensures AllIgnored(t) == t
  {
  }

  /** A comment is skipped as a whole, and the ignored run goes on after it. */
  lemma AllIgnoredComment(i: string)
    requires StripComments(i).Parsed?
    ensures AllIgnored(i) == AllIgnored(StripComments(i).rest)
  {
    assert i[0] == '/' by {
      assert i[..2][0] == i[0];
    }
  }

  /** The ignored run is a prefix: what remains is a suffix of the input. */
  lemma {:induction false} AllIgnoredSuffix(i: string)
    ensures IsSuffix(AllIgnored(i), i)
    decreases |i|
  {
    if i == [] {
    } else if IsIgnorable(i[0]) {
      AllIgnoredSuffix(i[1..]);
      SuffixTrans(AllIgnored(i[1..]), i[1..], i);
    } else {
      match StripComments(i)
      case Parsed(rest, _) =>
        StripCommentsSuffix(i);
        AllIgnoredSuffix(rest);
        SuffixTrans(AllIgnored(rest), rest, i);
      case Failed =>
    }
  }

  lemma StripCommentsSuffix(i: string)
    requires StripComments(i).Parsed?
    ensures IsSuffix(StripComments(i).rest, i)
  {
    if LineComment(i).Parsed? {
      var n := LineRunLen(i[2..]);
      assert i[2 + n..] == i[|i| - |i[2 + n..]|..];
    } else {
      var k := Find(i[2..], "*/").value;
      assert i[2..][k + 2..] == i[2 + k + 2..];
    }
  }

  /** Whitespace and commas before `t` are skipped as if absent. */
  lemma {:induction false} AllIgnoredSkips(ws: string, t: string)
    requires forall k :: 0 <= k < |ws| ==> IsIgnorable(ws[k])
    ensures AllIgnored(ws + t) == AllIgnored(t)
    decreases |ws|
  {
    if ws == [] {
      assert ws + t == t;
    } else {
      assert (ws + t)[1..] == ws[1..] + t;
      AllIgnoredSkips(ws[1..], t);
    }
  }

  /**
   * On `/*comment */ true //asdf` a boolean does not parse until the ignored
   * run is skipped, and then reads `true`.
   */
  lemma WhitespaceExample()
    ensures Bool("/*" + "comment " + "*/" + (" " + ("true" + " //asdf"))) == Failed
    ensures AllIgnored("/*" + "comment " + "*/" + (" " + ("true" + " //asdf"))) == "true" + " //asdf"
    ensures Bool("true" + " //asdf") == Parsed(" //asdf", true)
  {
    CommentNotBool();
    CommentSkipped();
    TrueThenComment();
  }

  lemma CommentNotBool()
    ensures Bool("/*" + "comment " + "*/" + (" " + ("true" + " //asdf"))) == Failed
  {
    var i := "/*" + "comment " + "*/" + (" " + ("true" + " //asdf"));
    assert i[..4][0] == '/' && i[..5][0] == '/';
  }

  lemma CommentSkipped()
    ensures AllIgnored("/*" + "comment " + "*/" + (" " + ("true" + " //asdf"))) == "true" + " //asdf"
  {
    var x := "true" + " //asdf";
    var i := "/*" + "comment " + "*/" + (" " + x);
    assert StripComments(i) == Parsed(" " + x, ()) by {
      assert !StartsWith(i, "//") by {
        assert i[..2][1] == '*';
      }
      NoStarIsNoEnd("comment ");
      BlockCommentOf("comment ", " " + x);
    }
    assert AllIgnored(" " + x) == AllIgnored(x) by {
      AllIgnoredSkips(" ", x);
    }
    assert AllIgnored(x) == x by {
      assert !StartsWith(x, "//") && !StartsWith(x, "/*") by {
        assert x[..2][0] == 't';
      }
    }
    assert !IsIgnorable(i[0]);
  }

  lemma TrueThenComment()
    ensures Bool("true" + " //asdf") == Parsed(" //asdf", true)
  {
    var x := "true" + " //asdf";
    assert x[0] == 't';
    assert x[..4] == "true" && x[4..] == " //asdf";
  }

  lemma LiteralExamples()
    ensures Unit("null") == Parsed("", ())
    ensures Bool("true") == Parsed("", true)
    ensures Number("1.0") == Parsed("", 1.0)
  {
    assert "null"[..4] == "null";
    assert "true"[..4] == "true";
    var i := "1.0";
    assert DigitRunLen(i) == 1;
    assert i[..1] == "1" && DigitsValue("1") == 1;
    assert i[1..] == ".0";
    assert ".0"[1..] == "0";
    assert DigitRunLen("0") == 1;
    assert "0"[..1] == "0" && DigitsValue("0") == 0;
  }

  lemma {:induction false} NatTextValue(n: nat)
    ensures DigitsValue(NatText(n)) == n
    decreases n
  {
    var c := ('0' as int + n % 10) as char;
    var d := NatText(n);
    if n < 10 {
      assert d == [c];
      assert d[..0] == [];
    } else {
      NatTextValue(n / 10);
      assert d[..|d| - 1] == NatText(n / 10);
      assert d[|d| - 1] == c;
    }
  }

  lemma {:induction false} DigitRunOf(d: string, t: string)
    requires AllDigits(d)
    requires t == [] || !IsDigit(t[0])
    ensures DigitRunLen(d + t) == |d|
    decreases |d|
  {
    if d == [] {
      assert d + t == t;
    } else {
      assert (d + t)[1..] == d[1..] + t;
      DigitRunOf(d[1..], t);
    }
  }

  /** The digits of a natural number followed by `.0` read back as that number. */
  lemma NatTextRoundTrip(m: nat, tail: string)
    requires tail == [] || !IsDigit(tail[0])
    ensures Unsigned(NatText(m) + (".0" + tail)) == Parsed(tail, m as real)
  {
    var d := NatText(m);
    var u := d + (".0" + tail);
    NatTextValue(m);
    DigitRunOf(d, ".0" + tail);
    assert u[..|d|] == d;
    assert u[|d|..] == ".0" + tail;
    FractionZero(tail);
  }

  /** A `.0` fraction adds nothing. */
  lemma FractionZero(tail: string)
    requires tail == [] || !IsDigit(tail[0])
    ensures FractionValue(".0" + tail) == 0.0 && FractionRest(".0" + tail) == tail
  {
    var t := ".0" + tail;
    assert t[1..] == "0" + tail;
    DigitRunOf("0", tail);
    assert t[1..][..1] == "0";
    assert "0"[..0] == [];
    assert DigitsValue("0") == 0;
  }

  /**
   * An integer written in decimal followed by `.0`, the form the serializer
   * writes whole numbers in, reads back as that integer.
   */
  lemma IntTextRoundTrip(n: int, tail: string)
    requires tail == [] || !IsDigit(tail[0])
    ensures Number(IntText(n) + (".0" + tail)) == Parsed(tail, n as real)
  {
    if n < 0 {
      var m: nat := -n;
      assert IntText(n) == "-" + NatText(m);
      assert -(m as real) == n as real;
      NegativeRoundTrip(m, tail);
    } else {
      assert IntText(n) == NatText(n);
      PositiveRoundTrip(n, tail);
    }
  }

  lemma PositiveRoundTrip(m: nat, tail: string)
    requires tail == [] || !IsDigit(tail[0])
    ensures Number(NatText(m) + (".0" + tail)) == Parsed(tail, m as real)
  {
    NatTextRoundTrip(m, tail);
    var i := NatText(m) + (".0" + tail);
    assert i[0] == NatText(m)[0];
  }

  lemma NegativeRoundTrip(m: nat, tail: string)
    requires tail == [] || !IsDigit(tail[0])
    ensures Number("-" + NatText(m) + (".0" + tail)) == Parsed(tail, -(m as real))
  {
    var d := NatText(m);
    assert Unsigned(d + (".0" + tail)) == Parsed(tail, m as real) by {
      NatTextRoundTrip(m, tail);
    }
    assert IsDigit(d[0]) by {
      assert AllDigits(d);
    }
    NumberNegated(d, ".0" + tail, tail, m as real);
  }

  /** A leading minus sign negates the number that follows it. */
  lemma NumberNegated(d: string, x: string, rest: string, v: real)
    requires d != [] && IsDigit(d[0])
    requires Unsigned(d + x) == Parsed(rest, v)
    ensures Number("-" + d + x) == Parsed(rest, -v)
  {
    var i := "-" + d + x;
    assert i[0] == '-';
    assert i[1..] == d + x;
  }
}
