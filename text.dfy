/** String operations the handlers rely on: ASCII case folding (`LOWER`,
    `ILIKE`), `String.prototype.trim`, and the SQL `LIKE` pattern match with
    its two wildcards, `%` (any run of characters) and `_` (one character),
    and its default escape character `\`. */
module Text {

  function LowerChar(c: char): char {
    if 'A' <= c <= 'Z' then (c as int + 32) as char else c
  }

  function Lower(s: string): (r: string)
    ensures |r| == |s|
  {
    seq(|s|, i requires 0 <= i < |s| => LowerChar(s[i]))
  }

  predicate EqualsIgnoreCase(a: string, b: string) {
    Lower(a) == Lower(b)
  }

  /** The characters `trim()` removes at either end: the WhiteSpace and
      LineTerminator code points of ECMAScript (tab, vertical tab, form feed,
      space, no-break space, the byte order mark, the other space separators
      of Unicode category Zs, line feed, carriage return, and the line and
      paragraph separators). */
  predicate IsSpace(c: char) {
    || c == '\t' || c == '\U{B}' || c == '\U{C}' || c == ' '
    || c == '\U{A0}' || c == '\U{FEFF}'
    || c == '\U{1680}' || ('\U{2000}' <= c <= '\U{200A}') || c == '\U{202F}' || c == '\U{205F}' || c == '\U{3000}'
    || c == '\n' || c == '\r' || c == '\U{2028}' || c == '\U{2029}'
  }

  function TrimStart(s: string): (r: string)
    ensures |r| <= |s| && r == s[|s| - |r|..]
    ensures r == [] || !IsSpace(r[0])
    ensures forall i :: 0 <= i < |s| - |r| ==> IsSpace(s[i])
  {
    if s != [] && IsSpace(s[0]) then TrimStart(s[1..]) else s
  }

  function TrimEnd(s: string): (r: string)
    ensures |r| <= |s| && r == s[..|r|]
    ensures r == [] || !IsSpace(r[|r| - 1])
    ensures forall i :: |r| <= i < |s| ==> IsSpace(s[i])
  {
    if s != [] && IsSpace(s[|s| - 1]) then TrimEnd(s[..|s| - 1]) else s
  }

  function Trim(s: string): string {
    TrimEnd(TrimStart(s))
  }

  /** `s.trim()` is empty exactly when `s` is all whitespace. */
  lemma TrimEmptyIffBlank(s: string)
    ensures Trim(s) == [] <==> forall i :: 0 <= i < |s| ==> IsSpace(s[i])
  {
  }

  /** A string with no white space at either end is its own trim. */
  lemma TrimUnpadded(s: string)
    requires s != [] ==> !IsSpace(s[0]) && !IsSpace(s[|s| - 1])
    ensures Trim(s) == s
  {
    assert TrimStart(s) == s;
  }

  predicate IsPrefix(p: string, s: string) {
    |p| <= |s| && s[..|p|] == p
  }

  predicate IsSuffix(p: string, s: string) {
    |p| <= |s| && s[|s| - |p|..] == p
  }

  predicate Contains(s: string, p: string) {
    exists k :: 0 <= k <= |s| && IsPrefix(p, s[k..])
  }

  /** A pattern with no wildcard and no escape: every character stands for
      itself. */
  predicate NoWildcards(p: string) {
    forall i :: 0 <= i < |p| ==> p[i] != '%' && p[i] != '_' && p[i] != '\\'
  }

  /** Every escape character of the pattern has a character after it to
      escape. The database refuses a pattern that ends in a lone `\` with
      an error ("LIKE pattern must not end with escape character"). */
  predicate EscapesClosed(p: string)
    decreases |p|
  {
    if p == [] then true
    else if p[0] == '\\' then |p| >= 2 && EscapesClosed(p[2..])
    else EscapesClosed(p[1..])
  }

  /** `s LIKE p`: `%` matches any run of characters, `_` exactly one, `\`
      makes the character after it stand for itself, and every other
      character stands for itself. A lone trailing `\` matches nothing here;
      the handlers test `EscapesClosed` first. */
  function Like(s: string, p: string): bool
    decreases |s| + |p|
  {
    if p == [] then s == []
    else if p[0] == '%' then Like(s, p[1..]) || (s != [] && Like(s[1..], p))
    else if p[0] == '\\' then |p| >= 2 && s != [] && p[1] == s[0] && Like(s[1..], p[2..])
    else s != [] && (p[0] == '_' || p[0] == s[0]) && Like(s[1..], p[1..])
  }

  /** `s ILIKE p`, and equally `LOWER(s) LIKE LOWER(p)`. */
  predicate ILike(s: string, p: string) {
    Like(Lower(s), Lower(p))
  }

  /** `ILIKE p` fails with the database error: the lowered pattern ends in
      a lone escape. */
  predicate ILikeRefuses(p: string) {
    !EscapesClosed(Lower(p))
  }

  /** Any pattern whose last character is not `\` has all its escapes
      closed, whatever comes before it. */
  lemma {:induction false} EscapesClosedBeforeLast(p: string, c: char)
    requires c != '\\'
    ensures EscapesClosed(p + [c])
    decreases |p|
  {
    if p != [] {
      if p[0] == '\\' && |p| >= 2 {
        assert (p + [c])[2..] == p[2..] + [c];
        EscapesClosedBeforeLast(p[2..], c);
      } else if p[0] != '\\' {
        assert (p + [c])[1..] == p[1..] + [c];
        EscapesClosedBeforeLast(p[1..], c);
      } else {
        assert p + [c] == ['\\', c];
        assert (p + [c])[2..] == [];
      }
    }
  }

  /** A backslash escapes the wildcard after it: `'%a\%'` matches exactly the
      strings that end in "a%". */
  lemma EscapedPercentIsLiteral(s: string)
    ensures Like(s, "%a\\%") <==> IsSuffix("a%", s)
  {
    var rest := "a\\%";
    assert "%a\\%" == "%" + rest;
    LikeLeadingPercent(s, rest);
    forall k | 0 <= k <= |s|
      ensures Like(s[k..], rest) <==> s[k..] == "a%"
    {
      var t := s[k..];
      assert rest[1..] == "\\%" && rest[1..][2..] == [];
      if t != [] && t[0] == 'a' && t[1..] != [] && t[1..][0] == '%' {
        assert Like(t[1..][1..], []) <==> t == "a%";
      }
    }
    if IsSuffix("a%", s) {
      assert s[|s| - 2..] == "a%";
    }
  }

  /** Without wildcards, LIKE is string equality. */
  lemma {:induction false} LikeLiteral(s: string, p: string)
    requires NoWildcards(p)
    ensures Like(s, p) <==> s == p
    decreases |p|
  {
    if p != [] {
      if s != [] {
        LikeLiteral(s[1..], p[1..]);
        assert s == [s[0]] + s[1..] && p == [p[0]] + p[1..];
      }
    }
  }

  /** A trailing `%` matches every rest of the string. */
  lemma {:induction false} LikeAnyRest(s: string)
    ensures Like(s, "%")
  {
    assert Like(s, "%"[1..]) <==> s == [];
    if s != [] {
      LikeAnyRest(s[1..]);
    }
  }

  /** A leading `%` lets the rest of the pattern match at any position. */
  lemma {:induction false} LikeLeadingPercent(s: string, p: string)
    ensures Like(s, "%" + p) <==> exists k :: 0 <= k <= |s| && Like(s[k..], p)
    decreases |s|
  {
    var pp := "%" + p;
    assert pp[1..] == p;
    assert s[0..] == s;
    if s != [] {
      LikeLeadingPercent(s[1..], p);
      if Like(s[1..], pp) {
        var k :| 0 <= k <= |s[1..]| && Like(s[1..][k..], p);
        assert s[1..][k..] == s[k + 1..];
      }
      if k :| 0 <= k <= |s| && Like(s[k..], p) {
        if k > 0 {
          assert s[1..][k - 1..] == s[k..];
        }
      }
    }
  }

  /** A literal followed by `%` is a prefix test. */
  lemma {:induction false} LikeLiteralThenPercent(s: string, p: string)
    requires NoWildcards(p)
    ensures Like(s, p + "%") <==> IsPrefix(p, s)
    decreases |p|
  {
    if p == [] {
      assert p + "%" == "%";
      LikeAnyRest(s);
    } else {
      assert (p + "%")[1..] == p[1..] + "%";
      assert (p + "%")[0] == p[0];
      if s != [] {
        LikeLiteralThenPercent(s[1..], p[1..]);
        if IsPrefix(p, s) {
          assert s[1..][..|p| - 1] == s[..|p|][1..];
        }
        if IsPrefix(p[1..], s[1..]) && p[0] == s[0] {
          assert s[..|p|] == [s[0]] + s[1..][..|p| - 1];
        }
      }
    }
  }

  /** `s LIKE '%q%'` for a literal `q` is substring search. */
  lemma LikeContains(s: string, q: string)
    requires NoWildcards(q)
    ensures Like(s, "%" + q + "%") <==> Contains(s, q)
  {
    assert "%" + q + "%" == "%" + (q + "%");
    LikeLeadingPercent(s, q + "%");
    forall k | 0 <= k <= |s|
      ensures Like(s[k..], q + "%") <==> IsPrefix(q, s[k..])
    {
      LikeLiteralThenPercent(s[k..], q);
    }
  }

  /** `s LIKE '%q'` for a literal `q` is a suffix test. */
  lemma LikeEndsWith(s: string, q: string)
    requires NoWildcards(q)
    ensures Like(s, "%" + q) <==> IsSuffix(q, s)
  {
    LikeLeadingPercent(s, q);
    forall k | 0 <= k <= |s|
      ensures Like(s[k..], q) <==> s[k..] == q
    {
      LikeLiteral(s[k..], q);
    }
    if IsSuffix(q, s) {
      assert Like(s[|s| - |q|..], q);
    }
  }

  /** `_` is a wildcard, not a literal underscore: `'%_%'` matches every
      non-empty string. */
  lemma {:induction false} UnderscoreMatchesAnyChar(s: string)
    ensures Like(s, "%_%") <==> s != []
  {
    LikeLeadingPercent(s, "_%");
    if s != [] {
      assert "_%"[1..] == "%";
      LikeAnyRest(s[1..]);
      assert Like(s[0..], "_%");
    }
  }

  /** Case folding leaves the two wildcards alone. */
  lemma LowerKeepsWildcards(p: string)
    ensures NoWildcards(p) <==> NoWildcards(Lower(p))
  {
    forall i | 0 <= i < |p|
      ensures (p[i] != '%' && p[i] != '_') <==> (Lower(p)[i] != '%' && Lower(p)[i] != '_')
    {
      assert Lower(p)[i] == LowerChar(p[i]);
    }
  }

  lemma LowerConcat(a: string, b: string)
    ensures Lower(a + b) == Lower(a) + Lower(b)
  {
  }
}
