/*
 * Shared vocabulary of the Tot model: parser outcomes, error values,
 * character classes and substring search.
 */
module Base {

  /** Outcome of a prefix parser: the unconsumed remainder and the value read, or failure. */
  datatype PResult<T> = Parsed(rest: string, value: T) | Failed

  datatype Option<T> = None | Some(value: T)

  /**
   * The failures the deserializer and serializer report. Each constructor
   * stands for one message of the source (`Eof` is "eof", `ExpectedDictEnd`
   * is "Expected dict end", `Explode` is "explode!", ...); `ParseFailure`
   * is a nom parser error turned into a message, and the remaining ones are
   * the errors serde's derived visitors raise.
   */
  datatype Error =
    | Eof
    | Syntax
    | ExpectedArrayOpen
    | ExpectedArrayEnd
    | ExpectedDictOpen
    | ExpectedDictEnd
    | ExpectedEnumOpen
    | ExpectedEnumEnd
    | ExpectedString
    | InputNotEmpty
    | ParseFailure
    | OutOfRange
    | InvalidType
    | InvalidValue
    | InvalidLength
    | UnknownVariant
    | DuplicateField
    | MissingField
    | Explode

  datatype Result<T> = Ok(value: T) | Err(error: Error)

  /** nom's `multispace` class: space, tab, carriage return, line feed. */
  predicate IsMultispace(c: char) {
    c == ' ' || c == '\t' || c == '\r' || c == '\n'
  }

  predicate IsDigit(c: char) {
    '0' <= c <= '9'
  }

  predicate IsHexDigit(c: char) {
    IsDigit(c) || 'a' <= c <= 'f' || 'A' <= c <= 'F'
  }

  function HexValue(c: char): (v: nat)
    requires IsHexDigit(c)
    ensures v < 16
  {
    if IsDigit(c) then c as int - '0' as int
    else if 'a' <= c <= 'f' then c as int - 'a' as int + 10
    else c as int - 'A' as int + 10
  }

  function DigitValue(c: char): (v: nat)
    requires IsDigit(c)
    ensures v < 10
  {
    c as int - '0' as int
  }

  /** `pat` occurs in `s` starting at index `j`. */
  predicate OccursAt(s: string, pat: string, j: int) {
    0 <= j && j + |pat| <= |s| && s[j..j + |pat|] == pat
  }

  /**
   * The first index at which `pat` occurs in `s`, the search nom's
   * `take_until` performs.
   */
  function Find(s: string, pat: string): (r: Option<nat>)
    ensures r.Some? ==> OccursAt(s, pat, r.value)
    ensures r.Some? ==> forall j :: 0 <= j < r.value ==> !OccursAt(s, pat, j)
    ensures r.None? ==> forall j :: 0 <= j <= |s| ==> !OccursAt(s, pat, j)
    decreases |s|
  {
    if |s| < |pat| then None
    else if s[..|pat|] == pat then Some(0)
    else
      match Find(s[1..], pat)
      case None =>
        assert forall j :: 1 <= j <= |s| ==> OccursAt(s, pat, j) == OccursAt(s[1..], pat, j - 1) by {
          forall j | 1 <= j <= |s| ensures OccursAt(s, pat, j) == OccursAt(s[1..], pat, j - 1) {
            OccursShift(s, pat, j);
          }
        }
        None
      case Some(k) =>
        assert forall j :: 1 <= j <= |s| ==> OccursAt(s, pat, j) == OccursAt(s[1..], pat, j - 1) by {
          forall j | 1 <= j <= |s| ensures OccursAt(s, pat, j) == OccursAt(s[1..], pat, j - 1) {
            OccursShift(s, pat, j);
          }
        }
        Some(k + 1)
  }

  lemma OccursShift(s: string, pat: string, j: int)
    requires 1 <= j <= |s|
    ensures OccursAt(s, pat, j) == OccursAt(s[1..], pat, j - 1)
  {
    if j + |pat| <= |s| {
      var t := s[1..];
      var a, b := t[j - 1..j - 1 + |pat|], s[j..j + |pat|];
      assert forall k :: 0 <= k < |pat| ==> a[k] == b[k];
      assert a == b;
    }
  }

  /** `r` is what remains of `s` after some prefix was consumed. */
  predicate IsSuffix(r: string, s: string) {
    |r| <= |s| && r == s[|s| - |r|..]
  }

  lemma SuffixTrans(a: string, b: string, c: string)
    requires IsSuffix(a, b) && IsSuffix(b, c)
    ensures IsSuffix(a, c)
  {
    assert c[|c| - |b|..][|b| - |a|..] == c[|c| - |a|..];
  }

  lemma ConcatSuffix(p: string, r: string)
    ensures IsSuffix(r, p + r)
  {
  }

  /** `s` begins with `p`. */
  predicate StartsWith(s: string, p: string) {
    |p| <= |s| && s[..|p|] == p
  }

  /** Concatenation regrouped; stated once so that long proofs need not rediscover it. */
  lemma Assoc<T>(a: seq<T>, b: seq<T>, c: seq<T>)
    ensures a + (b + c) == a + b + c
  {
  }
}
