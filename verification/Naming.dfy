/** Method names to `RpcCall` variant names: `snake_to_pascal_case` in `macros/src/lib.rs`. */
module Naming {

  /** The result of the loop on `s`. `upper` is the full Unicode upper-casing of a character,
      which may yield several characters; `capitalizeNext` is the loop's flag. */
  function Pascal(upper: char -> string, s: string, capitalizeNext: bool): string {
    if s == "" then ""
    else if s[0] == '_' then Pascal(upper, s[1..], true)
    else if capitalizeNext then upper(s[0]) + Pascal(upper, s[1..], false)
    else [s[0]] + Pascal(upper, s[1..], false)
  }

  function VariantName(upper: char -> string, name: string): string {
    Pascal(upper, name, true)
  }

  method SnakeToPascalCase(upper: char -> string, s: string) returns (result: string)
    ensures result == VariantName(upper, s)
  {
    result := "";
    var capitalizeNext := true;
    for i := 0 to |s|
      invariant VariantName(upper, s) == result + Pascal(upper, s[i..], capitalizeNext)
    {
      assert s[i..][1..] == s[i + 1..];
      var c := s[i];
      if c == '_' {
        capitalizeNext := true;
      } else {
        ghost var rest := Pascal(upper, s[i + 1..], false);
        if capitalizeNext {
          assert result + (upper(c) + rest) == (result + upper(c)) + rest;
          result := result + upper(c);
          capitalizeNext := false;
        } else {
          assert result + ([c] + rest) == (result + [c]) + rest;
          result := result + [c];
        }
      }
    }
  }

  lemma PascalFirst(upper: char -> string, c: char, s: string, capitalizeNext: bool)
    ensures Pascal(upper, [c] + s, capitalizeNext)
            == (if c == '_' then "" else if capitalizeNext then upper(c) else [c]) + Pascal(upper, s, c == '_')
  {
    assert ([c] + s)[1..] == s;
  }

  /** Segments are converted independently: `_` separates and leaves nothing behind. */
  lemma {:induction false} PascalSegments(upper: char -> string, a: string, b: string, capitalizeNext: bool)
    ensures Pascal(upper, a + "_" + b, capitalizeNext) == Pascal(upper, a, capitalizeNext) + VariantName(upper, b)
    decreases |a|
  {
    if a == "" {
      PascalFirst(upper, '_', b, capitalizeNext);
      assert a + "_" + b == ['_'] + b;
    } else {
      PascalSegments(upper, a[1..], b, a[0] == '_');
      PascalFirst(upper, a[0], a[1..], capitalizeNext);
      PascalFirst(upper, a[0], a[1..] + "_" + b, capitalizeNext);
      assert a == [a[0]] + a[1..];
      assert a + "_" + b == [a[0]] + (a[1..] + "_" + b);
    }
  }

  lemma VariantNameOfSegments(upper: char -> string, a: string, b: string)
    ensures VariantName(upper, a + "_" + b) == VariantName(upper, a) + VariantName(upper, b)
  {
    PascalSegments(upper, a, b, true);
  }

  // ---------- When the name can be recovered ----------

  predicate IsLower(c: char) { 'a' <= c <= 'z' }
  predicate IsUpper(c: char) { 'A' <= c <= 'Z' }
  predicate IsDigit(c: char) { '0' <= c <= '9' }

  function ToUpper(c: char): char
    requires IsLower(c)
  {
    ((c as int) - 32) as char
  }

  function ToLower(c: char): char
    requires IsUpper(c)
  {
    ((c as int) + 32) as char
  }

  /** Upper-casing does to ASCII letters and digits what it does in Unicode. */
  ghost predicate UppercasesAscii(upper: char -> string) {
    && (forall c | IsLower(c) :: upper(c) == [ToUpper(c)])
    && (forall c | IsUpper(c) || IsDigit(c) :: upper(c) == [c])
  }

  predicate AllNameChars(s: string) {
    forall k | 0 <= k < |s| :: IsLower(s[k]) || IsUpper(s[k]) || IsDigit(s[k]) || s[k] == '_'
  }

  predicate AllAlphanumeric(s: string) {
    forall k | 0 <= k < |s| :: IsLower(s[k]) || IsUpper(s[k]) || IsDigit(s[k])
  }

  /** An ASCII Rust identifier. */
  predicate IsIdentifier(s: string) {
    s != "" && AllNameChars(s) && !IsDigit(s[0])
  }

  /** The rest of a canonical name: lower-case letters and digits, and underscores each
      followed by a lower-case letter. */
  predicate CanonicalRest(s: string)
    decreases |s|
  {
    s == "" ||
    if s[0] == '_' then |s| > 1 && IsLower(s[1]) && CanonicalRest(s[2..])
    else (IsLower(s[0]) || IsDigit(s[0])) && CanonicalRest(s[1..])
  }

  /** Non-empty segments joined by single underscores, each starting with a lower-case letter
      and going on with lower-case letters and digits. */
  predicate Canonical(s: string) {
    s != "" && IsLower(s[0]) && CanonicalRest(s[1..])
  }

  /** Each upper-case letter back to an underscore and its lower-case letter. */
  function SnakeRest(p: string): string {
    if p == "" then ""
    else if IsUpper(p[0]) then ['_', ToLower(p[0])] + SnakeRest(p[1..])
    else [p[0]] + SnakeRest(p[1..])
  }

  /** The inverse: the first letter gets no underscore. */
  function Snake(p: string): string {
    if p != "" && IsUpper(p[0]) then [ToLower(p[0])] + SnakeRest(p[1..]) else SnakeRest(p)
  }

  lemma {:induction false} PascalAlphanumeric(upper: char -> string, s: string, capitalizeNext: bool)
    requires UppercasesAscii(upper) && AllNameChars(s)
    ensures AllAlphanumeric(Pascal(upper, s, capitalizeNext))
    decreases |s|
  {
    if s != "" {
      PascalAlphanumeric(upper, s[1..], s[0] == '_');
    }
  }

  lemma {:induction false} SnakeRestCanonical(p: string)
    requires AllAlphanumeric(p)
    ensures CanonicalRest(SnakeRest(p))
  {
    if p != "" {
      SnakeRestCanonical(p[1..]);
      if IsUpper(p[0]) {
        assert SnakeRest(p)[2..] == SnakeRest(p[1..]);
      } else {
        assert SnakeRest(p)[1..] == SnakeRest(p[1..]);
      }
    }
  }

  lemma {:induction false} RestRoundTrip(upper: char -> string, s: string)
    requires UppercasesAscii(upper) && CanonicalRest(s)
    ensures SnakeRest(Pascal(upper, s, false)) == s
    decreases |s|
  {
    if s != "" {
      if s[0] == '_' {
        RestRoundTrip(upper, s[2..]);
        assert s[1..][1..] == s[2..];
        var rest := Pascal(upper, s[2..], false);
        assert Pascal(upper, s, false) == [ToUpper(s[1])] + rest;
        assert ([ToUpper(s[1])] + rest)[1..] == rest;
      } else {
        RestRoundTrip(upper, s[1..]);
        var rest := Pascal(upper, s[1..], false);
        assert Pascal(upper, s, false) == [s[0]] + rest;
        assert ([s[0]] + rest)[1..] == rest;
      }
    }
  }

  lemma RoundTrip(upper: char -> string, s: string)
    requires UppercasesAscii(upper) && Canonical(s)
    ensures Snake(VariantName(upper, s)) == s
  {
    RestRoundTrip(upper, s[1..]);
    var rest := Pascal(upper, s[1..], false);
    assert VariantName(upper, s) == [ToUpper(s[0])] + rest;
    assert ([ToUpper(s[0])] + rest)[1..] == rest;
  }

  /** A method name can be recovered from its variant name if and only if it is canonical. */
  lemma RecoverableIffCanonical(upper: char -> string, s: string)
    requires UppercasesAscii(upper) && IsIdentifier(s)
    ensures Snake(VariantName(upper, s)) == s <==> Canonical(s)
  {
    var p := VariantName(upper, s);
    if Canonical(s) {
      RoundTrip(upper, s);
    }
    PascalAlphanumeric(upper, s, true);
    if p != "" && IsUpper(p[0]) {
      assert Snake(p)[1..] == SnakeRest(p[1..]);
      SnakeRestCanonical(p[1..]);
    }
    StartsCapital(upper, s);
  }

  /** A variant name never starts with a lower-case letter. */
  lemma {:induction false} StartsCapital(upper: char -> string, s: string)
    requires UppercasesAscii(upper) && AllNameChars(s)
    ensures var p := VariantName(upper, s); p != "" ==> IsUpper(p[0]) || IsDigit(p[0])
  {
    if s != "" && s[0] == '_' {
      StartsCapital(upper, s[1..]);
    }
  }

  /** Distinct canonical method names have distinct variant names, so the generated enum and
      its dispatch are well defined. */
  lemma VariantNamesDistinct(upper: char -> string, a: string, b: string)
    requires UppercasesAscii(upper) && Canonical(a) && Canonical(b)
    ensures VariantName(upper, a) == VariantName(upper, b) <==> a == b
  {
    RoundTrip(upper, a);
    RoundTrip(upper, b);
  }

  /** Outside the canonical names the conversion collides. */
  lemma Collisions(upper: char -> string)
    requires UppercasesAscii(upper)
    ensures VariantName(upper, "a_1") == VariantName(upper, "a1")
    ensures VariantName(upper, "a__b") == VariantName(upper, "a_b")
  {
    VariantNameOfSegments(upper, "a", "1");
    VariantNameOfSegments(upper, "a", "b");
    VariantNameOfSegments(upper, "a_", "b");
    VariantNameOfSegments(upper, "a", "");
    assert "a" + "_" + "1" == "a_1" && "a" + "_" + "b" == "a_b" && "a_" + "_" + "b" == "a__b" && "a" + "_" + "" == "a_";
    assert "a1"[1..] == "1";
  }

  lemma {:induction false} PascalOfSnakeRest(upper: char -> string, p: string)
    requires UppercasesAscii(upper) && AllAlphanumeric(p)
    ensures Pascal(upper, SnakeRest(p), false) == p
  {
    if p != "" {
      PascalOfSnakeRest(upper, p[1..]);
      var rest := SnakeRest(p[1..]);
      if IsUpper(p[0]) {
        PascalFirst(upper, '_', [ToLower(p[0])] + rest, false);
        PascalFirst(upper, ToLower(p[0]), rest, true);
        assert ['_', ToLower(p[0])] + rest == ['_'] + ([ToLower(p[0])] + rest);
      } else {
        PascalFirst(upper, p[0], rest, false);
      }
      assert p == [p[0]] + p[1..];
    }
  }

  /** The name a variant stands for: canonical, and with that very variant. */
  lemma CanonicalTwin(upper: char -> string, p: string)
    requires UppercasesAscii(upper) && AllAlphanumeric(p) && p != "" && IsUpper(p[0])
    ensures Canonical(Snake(p)) && VariantName(upper, Snake(p)) == p
  {
    PascalOfSnakeRest(upper, p[1..]);
    SnakeRestCanonical(p[1..]);
    PascalFirst(upper, ToLower(p[0]), SnakeRest(p[1..]), true);
    assert p == [p[0]] + p[1..];
  }

  /** Of all names with the same variant exactly one is canonical. So a name shares its variant
      with a canonical name other than itself if and only if it is not canonical. */
  lemma CollidesIffNotCanonical(upper: char -> string, s: string)
    requires UppercasesAscii(upper) && AllNameChars(s)
    requires VariantName(upper, s) != "" && IsUpper(VariantName(upper, s)[0])
    ensures var twin := Snake(VariantName(upper, s));
            && Canonical(twin) && VariantName(upper, twin) == VariantName(upper, s)
            && (forall t | Canonical(t) && VariantName(upper, t) == VariantName(upper, s) :: t == twin)
            && (twin != s <==> !Canonical(s))
  {
    var p := VariantName(upper, s);
    PascalAlphanumeric(upper, s, true);
    CanonicalTwin(upper, p);
    forall t | Canonical(t) && VariantName(upper, t) == p ensures t == Snake(p) {
      RoundTrip(upper, t);
    }
  }

  /** Inside a segment letters are kept as they are, upper-case ones too. */
  lemma {:induction false} SegmentTailKept(upper: char -> string, s: string)
    requires '_' !in s
    ensures Pascal(upper, s, false) == s
  {
    if s != "" {
      SegmentTailKept(upper, s[1..]);
      assert s == [s[0]] + s[1..];
    }
  }

  lemma SegmentName(upper: char -> string, s: string)
    requires s != "" && '_' !in s
    ensures VariantName(upper, s) == upper(s[0]) + s[1..]
  {
    SegmentTailKept(upper, s[1..]);
  }

  /** Each segment keeps everything but its first character: an upper-case segment stays
      upper-case. */
  lemma SegmentsKept(upper: char -> string, a: string, b: string)
    requires a != "" && '_' !in a && b != "" && '_' !in b
    ensures VariantName(upper, a + "_" + b) == upper(a[0]) + a[1..] + upper(b[0]) + b[1..]
  {
    VariantNameOfSegments(upper, a, b);
    SegmentName(upper, a);
    SegmentName(upper, b);
    assert (upper(a[0]) + a[1..]) + (upper(b[0]) + b[1..]) == upper(a[0]) + a[1..] + upper(b[0]) + b[1..];
  }
}
