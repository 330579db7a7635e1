/**
 * The JavaScript string built-ins the validators and dashboard helpers rely on:
 * the character class `\s` (also what `trim()` strips), `trim()`, `length`
 * (counted in UTF-16 code units), `replace(/\s/g, '')`, `split(' ')`, and
 * `toUpperCase()` restricted to ASCII letters.
 */
module JsString {

  /** JavaScript's WhiteSpace and LineTerminator characters: what `\s` matches and `trim()` removes. */
  predicate IsSpace(c: char) {
    c == '\t' || c == '\n' || c == '\U{000B}' || c == '\U{000C}' || c == '\r' || c == ' '
    || c == '\U{00A0}' || c == '\U{1680}' || ('\U{2000}' <= c <= '\U{200A}')
    || c == '\U{2028}' || c == '\U{2029}' || c == '\U{202F}' || c == '\U{205F}'
    || c == '\U{3000}' || c == '\U{FEFF}'
  }

  predicate HasSpace(s: string) {
    exists k | 0 <= k < |s| :: IsSpace(s[k])
  }

  /** Every character is whitespace: what `!s.trim()` tests. */
  predicate IsBlank(s: string) {
    forall k | 0 <= k < |s| :: IsSpace(s[k])
  }

  predicate IsAsciiDigit(c: char) {
    '0' <= c <= '9'
  }

  /** `s.length`: a character outside the Basic Multilingual Plane takes two UTF-16 code units. */
  function Utf16Length(s: string): (n: nat)
    ensures |s| <= n <= 2 * |s|
    ensures (forall k | 0 <= k < |s| :: s[k] <= '\U{FFFF}') ==> n == |s|
  {
    if s == [] then 0 else (if s[0] <= '\U{FFFF}' then 1 else 2) + Utf16Length(s[1..])
  }

  /** Drops leading whitespace: the result is a suffix of `s` preceded only by whitespace. */
  function TrimStart(s: string): (r: string)
    ensures |r| <= |s| && r == s[|s| - |r|..]
    ensures r == [] || !IsSpace(r[0])
    ensures forall k | 0 <= k < |s| - |r| :: IsSpace(s[k])
  {
    if s != [] && IsSpace(s[0]) then TrimStart(s[1..]) else s
  }

  /** Drops trailing whitespace: the result is a prefix of `s` followed only by whitespace. */
  function TrimEnd(s: string): (r: string)
    ensures |r| <= |s| && r == s[..|r|]
    ensures r == [] || !IsSpace(r[|r| - 1])
    ensures forall k | |r| <= k < |s| :: IsSpace(s[k])
  {
    if s != [] && IsSpace(s[|s| - 1]) then TrimEnd(s[..|s| - 1]) else s
  }

  /** `s.trim()`: a stretch of `s` that neither starts nor ends with whitespace. */
  function Trim(s: string): (r: string)
    ensures |r| <= |s|
    ensures r == [] || (!IsSpace(r[0]) && !IsSpace(r[|r| - 1]))
  {
    TrimEnd(TrimStart(s))
  }

  /** `s.trim()` is empty exactly when every character of `s` is whitespace (`!value.trim()`). */
  lemma TrimEmptyIffBlank(s: string)
    ensures Trim(s) == [] <==> IsBlank(s)
  {
    var t := TrimStart(s);
    if Trim(s) == [] {
      assert t == [];
    }
  }

  /** `s.replace(/\s/g, '')`. */
  function RemoveSpaces(s: string): (r: string)
    ensures |r| <= |s|
  {
    if s == [] then []
    else if IsSpace(s[0]) then RemoveSpaces(s[1..])
    else [s[0]] + RemoveSpaces(s[1..])
  }

  /** What `replace(/\s/g, '')` leaves has no whitespace, and a string without whitespace is left as it is. */
  lemma {:induction false} RemoveSpacesSpec(s: string)
    ensures !HasSpace(RemoveSpaces(s))
    ensures !HasSpace(s) ==> RemoveSpaces(s) == s
  {
    if s != [] {
      RemoveSpacesSpec(s[1..]);
      if !HasSpace(s) {
        assert !IsSpace(s[0]);
        forall k | 0 <= k < |s[1..]| ensures !IsSpace(s[1..][k]) { assert s[1..][k] == s[k + 1]; }
      }
      var r := RemoveSpaces(s[1..]);
      if !IsSpace(s[0]) {
        forall k | 0 <= k < |[s[0]] + r| ensures !IsSpace(([s[0]] + r)[k]) {
          if k > 0 { assert ([s[0]] + r)[k] == r[k - 1]; }
        }
      }
    }
  }

  /** Removing whitespace commutes with concatenation. */
  lemma {:induction false} RemoveSpacesAppend(a: string, b: string)
    ensures RemoveSpaces(a + b) == RemoveSpaces(a) + RemoveSpaces(b)
  {
    if a != [] {
      assert (a + b)[1..] == a[1..] + b;
      RemoveSpacesAppend(a[1..], b);
    } else {
      assert a + b == b;
    }
  }

  /** `s.split(sep)`: the pieces between occurrences of `sep` (always at least one piece). */
  function Split(s: string, sep: char): (pieces: seq<string>)
    ensures |pieces| >= 1
    ensures forall i, k | 0 <= i < |pieces| && 0 <= k < |pieces[i]| :: pieces[i][k] != sep
  {
    if s == [] then [[]]
    else if s[0] == sep then [[]] + Split(s[1..], sep)
    else
      var rest := Split(s[1..], sep);
      [[s[0]] + rest[0]] + rest[1..]
  }

  /** `pieces.join(sep)`. */
  function Join(pieces: seq<string>, sep: char): string
    requires |pieces| >= 1
  {
    if |pieces| == 1 then pieces[0] else pieces[0] + [sep] + Join(pieces[1..], sep)
  }

  /** Splitting and joining again gives back the original string. */
  lemma {:induction false} JoinSplit(s: string, sep: char)
    ensures Join(Split(s, sep), sep) == s
  {
    if s == [] {
    } else if s[0] == sep {
      JoinSplit(s[1..], sep);
      assert s == [sep] + s[1..];
    } else {
      JoinSplit(s[1..], sep);
      var rest := Split(s[1..], sep);
      if |rest| == 1 {
        assert s == [s[0]] + s[1..];
      } else {
        assert Join(rest, sep) == rest[0] + [sep] + Join(rest[1..], sep);
        assert s == [s[0]] + s[1..];
      }
    }
  }

  predicate IsAsciiLower(c: char) {
    'a' <= c <= 'z'
  }

  /** `toUpperCase()` on ASCII letters; every other character is left as it is. */
  function UpperAscii(s: string): (r: string)
    ensures |r| == |s|
    ensures forall k | 0 <= k < |s| :: !IsAsciiLower(r[k])
    ensures forall k | 0 <= k < |s| :: !IsAsciiLower(s[k]) ==> r[k] == s[k]
    ensures forall k | 0 <= k < |s| :: IsAsciiLower(s[k]) ==> r[k] == (s[k] as int - 32) as char
  {
    if s == [] then []
    else [if IsAsciiLower(s[0]) then (s[0] as int - 32) as char else s[0]] + UpperAscii(s[1..])
  }
}
