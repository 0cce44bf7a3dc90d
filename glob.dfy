/**
 * Glob-style key patterns as used by `KEYS pattern`: `*` matches any run of
 * characters (newlines included), `?` matches exactly one character, and every
 * other character matches itself. Bracket classes (`[...]`) and backslash
 * escapes are not part of this model; the program only builds patterns of the
 * form `<literal prefix>*`.
 */
module Glob {

  predicate IsMeta(c: char) { c == '*' || c == '?' || c == '[' || c == '\\' }

  /** A pattern fragment that matches only itself. */
  predicate Literal(p: string) { forall i :: 0 <= i < |p| ==> !IsMeta(p[i]) }

  /** Whether the whole of `s` matches the whole of `pattern`. */
  predicate Match(pattern: string, s: string)
    decreases |pattern| + |s|
  {
    if pattern == [] then s == []
    else if pattern[0] == '*' then Match(pattern[1..], s) || (s != [] && Match(pattern, s[1..]))
    else s != [] && (pattern[0] == '?' || pattern[0] == s[0]) && Match(pattern[1..], s[1..])
  }

  /** A lone `*` matches every string. */
  lemma {:induction false} StarMatchesAll(s: string)
    ensures Match("*", s)
  {
    if s != [] {
      StarMatchesAll(s[1..]);
    }
  }

  /** A pattern `prefix*` with a literal prefix selects exactly the strings that begin with `prefix`. */
  lemma {:induction false} PrefixPattern(prefix: string, s: string)
    requires Literal(prefix)
    ensures Match(prefix + "*", s) <==> prefix <= s
  {
    if prefix == [] {
      assert prefix + "*" == "*";
      StarMatchesAll(s);
    } else {
      var p := prefix + "*";
      assert p[0] == prefix[0] && p[1..] == prefix[1..] + "*";
      if s != [] {
        PrefixPattern(prefix[1..], s[1..]);
        assert prefix <= s <==> prefix[0] == s[0] && prefix[1..] <= s[1..];
      }
    }
  }
}
