/**
  The string operations the service relies on, with JavaScript's meaning:
  `String.prototype.trim`, the UTF-16 `length` a Mongoose `minlength`
  validator compares, and the truthiness test `!field` on a request field.
 */
module Text {
  import opened Common

  /** The characters `trim` strips: the WhiteSpace and LineTerminator code
      points of ECMA-262 (sections 12.2 and 12.3). */
  predicate IsWhitespace(c: char) {
    || c == '\t' || c == '\U{000B}' || c == '\U{000C}' || c == ' '
    || c == '\U{00A0}' || c == '\U{FEFF}'
    || c == '\U{1680}' || ('\U{2000}' <= c <= '\U{200A}')
    || c == '\U{202F}' || c == '\U{205F}' || c == '\U{3000}'
    || c == '\n' || c == '\r' || c == '\U{2028}' || c == '\U{2029}'
  }

  /** Every character of `s` is whitespace (the empty string included). */
  predicate IsBlank(s: string) {
    forall i :: 0 <= i < |s| ==> IsWhitespace(s[i])
  }

  /** `s` neither starts nor ends with whitespace. */
  predicate IsTrimmed(s: string) {
    s == [] || (!IsWhitespace(s[0]) && !IsWhitespace(s[|s| - 1]))
  }

  /** Drops leading whitespace: the result is the suffix of `s` that starts
      at its first non-whitespace character. */
  function TrimStart(s: string): (r: string)
    ensures |r| <= |s| && r == s[|s| - |r|..]
    ensures r == [] || !IsWhitespace(r[0])
    ensures forall i :: 0 <= i < |s| - |r| ==> IsWhitespace(s[i])
  {
    if s != [] && IsWhitespace(s[0]) then TrimStart(s[1..]) else s
  }

  /** Drops trailing whitespace: the result is the prefix of `s` that ends
      at its last non-whitespace character. */
  function TrimEnd(s: string): (r: string)
    ensures |r| <= |s| && r == s[..|r|]
    ensures r == [] || !IsWhitespace(r[|r| - 1])
    ensures forall i :: |r| <= i < |s| ==> IsWhitespace(s[i])
  {
    if s != [] && IsWhitespace(s[|s| - 1]) then TrimEnd(s[..|s| - 1]) else s
  }

  /** `r` is the infix of `s` at offset `i` and everything around it is whitespace. */
  predicate StripsTo(s: string, r: string, i: int) {
    && 0 <= i <= |s| - |r|
    && r == s[i..i + |r|]
    && IsBlank(s[..i])
    && IsBlank(s[i + |r|..])
  }

  /** `s.trim()`: whitespace removed at both ends. */
  function Trim(s: string): (r: string)
    ensures IsTrimmed(r) && |r| <= |s|
  {
    var front := TrimStart(s);
    var r := TrimEnd(front);
    assert r == [] || !IsWhitespace(r[0]) by {
      if r != [] {
        assert r[0] == front[0];
      }
    }
    r
  }

  /** What `trim` leaves is an infix of its input, and everything it removed
      is whitespace. */
  lemma TrimIsInfix(s: string)
    ensures exists i :: StripsTo(s, Trim(s), i)
  {
    var front := TrimStart(s);
    var r := TrimEnd(front);
    var i := |s| - |front|;
    assert r == Trim(s);
    assert r == s[i..i + |r|];
    assert IsBlank(s[..i]) by {
      forall k | 0 <= k < i ensures IsWhitespace(s[..i][k]) {
        assert s[..i][k] == s[k];
      }
    }
    var tail := s[i + |r|..];
    assert IsBlank(tail) by {
      forall k | 0 <= k < |tail| ensures IsWhitespace(tail[k]) {
        assert tail[k] == front[|r| + k];
      }
    }
    assert StripsTo(s, r, i);
  }

  /** Trimming an already trimmed string changes nothing, in both directions:
      `Trim(s) == s` exactly when `s` is trimmed. */
  lemma {:induction false} TrimFixesTrimmed(s: string)
    ensures Trim(s) == s <==> IsTrimmed(s)
  {
    if IsTrimmed(s) {
      assert TrimStart(s) == s;
      assert TrimEnd(s) == s;
    }
  }

  /** `trim` is idempotent, so trimming in the controller and again in the
      schema's setter stores the same text. */
  lemma TrimIdempotent(s: string)
    ensures Trim(Trim(s)) == Trim(s)
  {
    TrimFixesTrimmed(Trim(s));
  }

  /** `s.trim() === ""` holds exactly for blank strings. */
  lemma TrimEmptyIffBlank(s: string)
    ensures Trim(s) == [] <==> IsBlank(s)
  {
  }

  /** The number of UTF-16 code units of `s`, which is what a JavaScript
      string's `length` counts: characters outside the Basic Multilingual
      Plane take two units. */
  function Utf16Length(s: string): (n: nat)
    ensures |s| <= n <= 2 * |s|
  {
    if s == [] then 0
    else (if s[0] as int >= 0x1_0000 then 2 else 1) + Utf16Length(s[1..])
  }

  /** For text made only of Basic Multilingual Plane characters the UTF-16
      length is the character count. */
  lemma {:induction false} Utf16LengthOfBmp(s: string)
    requires forall i :: 0 <= i < |s| ==> s[i] as int < 0x1_0000
    ensures Utf16Length(s) == |s|
  {
    if s != [] {
      assert s[0] as int < 0x1_0000;
      Utf16LengthOfBmp(s[1..]);
    }
  }

  /** JavaScript truthiness of an optional text field: `!field` is false
      exactly when the field is present and not the empty string. */
  predicate Present(field: Option<string>) {
    field.Some? && field.value != ""
  }
}
