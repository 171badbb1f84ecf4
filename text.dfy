/**
 * String operations the core relies on, written as Java and JavaScript
 * define them: prefix tests, substring search, ASCII case mapping,
 * Java's `equalsIgnoreCase`, Spring's `StringUtils.hasText` and the
 * SQL `LIKE` pattern match used by the JPQL search query.
 */
module Text {
  import opened Wrappers

  predicate StartsWith(s: string, prefix: string) {
    |prefix| <= |s| && s[..|prefix|] == prefix
  }

  /** `s.includes(q)` / `s.contains(q)`: `q` occurs at some position of `s`. */
  predicate Contains(s: string, q: string)
    decreases |s|
  {
    StartsWith(s, q) || (s != [] && Contains(s[1..], q))
  }

  /** `q` occurs in `s` starting at index `i`. */
  predicate OccursAt(s: string, q: string, i: int) {
    0 <= i <= |s| - |q| && s[i..i + |q|] == q
  }

  /** Contains agrees with "some window of `s` equals `q`". */
  lemma {:induction false} ContainsAt(s: string, q: string)
    ensures Contains(s, q) <==> exists i :: OccursAt(s, q, i)
  {
    if s == [] {
      if q == [] {
        assert OccursAt(s, q, 0);
      }
      if exists i :: OccursAt(s, q, i) {
        var i :| OccursAt(s, q, i);
        assert i == 0;
      }
    } else {
      ContainsAt(s[1..], q);
      if StartsWith(s, q) {
        assert OccursAt(s, q, 0);
      } else if Contains(s[1..], q) {
        var i :| OccursAt(s[1..], q, i);
        assert s[i + 1..i + 1 + |q|] == s[1..][i..i + |q|];
        assert OccursAt(s, q, i + 1);
      }
      if exists i :: OccursAt(s, q, i) {
        var i :| OccursAt(s, q, i);
        if i > 0 {
          assert s[1..][i - 1..i - 1 + |q|] == s[i..i + |q|];
          assert OccursAt(s[1..], q, i - 1);
        } else {
          assert StartsWith(s, q);
        }
      }
    }
  }

  /** Lower-case mapping of one character (ASCII letters; see README). */
  function LowerChar(c: char): char {
    if 'A' <= c <= 'Z' then (c as int + 32) as char else c
  }

  function ToLower(s: string): (r: string)
    ensures |r| == |s|
    ensures forall i :: 0 <= i < |s| ==> r[i] == LowerChar(s[i])
  {
    if s == [] then [] else [LowerChar(s[0])] + ToLower(s[1..])
  }

  /** Decimal rendering of a digit. */
  function DigitChar(d: int): char
    requires 0 <= d < 10
  {
    ('0' as int + d) as char
  }

  /** `Long.toString(n)` / `String.valueOf(n)`: optional minus sign, then decimal digits. */
  function IntToString(n: int): (r: string)
    ensures r != []
    ensures n >= 0 ==> forall i :: 0 <= i < |r| ==> '0' <= r[i] <= '9'
    decreases if n < 0 then -n + 1 else n
  {
    if n < 0 then "-" + IntToString(-n)
    else if n < 10 then [DigitChar(n)]
    else IntToString(n / 10) + [DigitChar(n % 10)]
  }

  // ---------------------------------------------------------------------
  // Java's String.equalsIgnoreCase

  /** `Character.toUpperCase` on the characters whose upper case is ASCII. */
  function JavaUpper(c: char): char {
    if 'a' <= c <= 'z' then (c as int - 32) as char
    else if c == '\U{017F}' then 'S'   // LATIN SMALL LETTER LONG S
    else if c == '\U{0131}' then 'I'   // LATIN SMALL LETTER DOTLESS I
    else c
  }

  /** `Character.toLowerCase` on the characters whose lower case is ASCII. */
  function JavaLower(c: char): char {
    if 'A' <= c <= 'Z' then (c as int + 32) as char
    else if c == '\U{212A}' then 'k'   // KELVIN SIGN
    else if c == '\U{0130}' then 'i'   // LATIN CAPITAL LETTER I WITH DOT ABOVE
    else c
  }

  /** The per-character test of `String.regionMatches(true, ...)`. */
  predicate CharEqualsIgnoreCase(a: char, b: char) {
    a == b || JavaUpper(a) == JavaUpper(b) || JavaLower(JavaUpper(a)) == JavaLower(JavaUpper(b))
  }

  /** `a.equalsIgnoreCase(b)` for a non-null `b`. */
  predicate EqualsIgnoreCase(a: string, b: string) {
    |a| == |b| && forall i :: 0 <= i < |a| ==> CharEqualsIgnoreCase(a[i], b[i])
  }

  // ---------------------------------------------------------------------
  // Spring's StringUtils.hasText

  /** `Character.isWhitespace`. */
  predicate IsJavaWhitespace(c: char) {
    ('\U{0009}' <= c <= '\U{000D}') || ('\U{001C}' <= c <= '\U{001F}') || c == ' '
    || c == '\U{1680}' || ('\U{2000}' <= c <= '\U{2006}') || ('\U{2008}' <= c <= '\U{200A}')
    || c == '\U{2028}' || c == '\U{2029}' || c == '\U{205F}' || c == '\U{3000}'
  }

  /** `StringUtils.hasText(s)`: non-null and holding a non-whitespace character. */
  predicate HasText(s: Option<string>) {
    s.Some? && exists i :: 0 <= i < |s.value| && !IsJavaWhitespace(s.value[i])
  }

  // ---------------------------------------------------------------------
  // SQL LIKE, without an escape character

  /** `s LIKE p`: `%` matches any run of characters, `_` exactly one. */
  predicate Like(s: string, p: string)
    decreases |s| + |p|
  {
    if p == [] then s == []
    else if p[0] == '%' then Like(s, p[1..]) || (s != [] && Like(s[1..], p))
    else s != [] && (p[0] == '_' || p[0] == s[0]) && Like(s[1..], p[1..])
  }

  predicate NoWildcards(q: string) {
    forall i :: 0 <= i < |q| ==> q[i] != '%' && q[i] != '_'
  }

  lemma {:induction false} LikePercent(s: string)
    ensures Like(s, "%")
  {
    if s != [] {
      LikePercent(s[1..]);
    }
  }

  /** A literal followed by `%` matches exactly the strings it prefixes. */
  lemma {:induction false} LikeLiteralPrefix(s: string, q: string)
    requires NoWildcards(q)
    ensures Like(s, q + "%") <==> StartsWith(s, q)
    decreases |q|
  {
    if q == [] {
      assert q + "%" == "%";
      LikePercent(s);
    } else {
      assert (q + "%")[1..] == q[1..] + "%";
      if s != [] {
        LikeLiteralPrefix(s[1..], q[1..]);
        if s[0] == q[0] {
          assert StartsWith(s, q) <==> StartsWith(s[1..], q[1..]);
        }
      }
    }
  }

  /** The search pattern `'%' + q + '%'` is substring search when `q` is literal. */
  lemma {:induction false} LikeIsContains(s: string, q: string)
    requires NoWildcards(q)
    ensures Like(s, "%" + q + "%") <==> Contains(s, q)
    decreases |s|
  {
    var p := "%" + q + "%";
    assert p[1..] == q + "%";
    LikeLiteralPrefix(s, q);
    if s != [] {
      LikeIsContains(s[1..], q);
    }
  }

  /** Lower-casing keeps `%` and `_`, so the lowered pattern is still `'%' + lower(q) + '%'`. */
  lemma LowerPattern(q: string)
    ensures ToLower("%" + q + "%") == "%" + ToLower(q) + "%"
    ensures NoWildcards(q) ==> NoWildcards(ToLower(q))
  {
  }
}
