/**
 * The text operations behind the search query: ASCII lower-casing (what both
 * Go's strings.ToLower and PostgreSQL's LOWER do on ASCII), substring
 * containment, PostgreSQL's LIKE matching with its `%` and `_` wildcards and
 * its default escape character `\`, and the escaping that turns any text into
 * a LIKE pattern matching exactly that text.
 */
module Text {

  predicate IsUpper(c: char) {
    'A' <= c <= 'Z'
  }

  function LowerChar(c: char): char {
    if IsUpper(c) then (c as int + 32) as char else c
  }

  /** ASCII lower-casing, character by character. */
  function Lower(s: string): (r: string)
    ensures |r| == |s|
    ensures forall i :: 0 <= i < |s| ==> r[i] == LowerChar(s[i])
    ensures forall i :: 0 <= i < |s| ==> !IsUpper(r[i])
  {
    if s == [] then [] else [LowerChar(s[0])] + Lower(s[1..])
  }

  /** Lower-casing twice is lower-casing once. */
  lemma LowerIdempotent(s: string)
    ensures Lower(Lower(s)) == Lower(s)
  {
    var once := Lower(s);
    assert forall i :: 0 <= i < |s| ==> Lower(once)[i] == LowerChar(once[i]) == once[i];
  }

  /** `q` is a prefix of `s`. */
  predicate IsPrefix(q: string, s: string) {
    |q| <= |s| && s[..|q|] == q
  }

  /** `q` occurs in `s` as a contiguous piece (the empty text occurs in every text). */
  predicate Contains(s: string, q: string)
    decreases |s|
  {
    IsPrefix(q, s) || (s != [] && Contains(s[1..], q))
  }

  /** `q` starts at position `k` of `s`. */
  predicate OccursAt(s: string, q: string, k: int) {
    0 <= k <= |s| - |q| && s[k..k + |q|] == q
  }

  /** Contains means: there is a position at which `q` starts in `s`. */
  lemma {:induction false} ContainsAt(s: string, q: string)
    ensures Contains(s, q) <==> exists k :: OccursAt(s, q, k)
    decreases |s|
  {
    if IsPrefix(q, s) {
      assert OccursAt(s, q, 0);
    }
    if s != [] {
      ContainsAt(s[1..], q);
      if Contains(s[1..], q) {
        var k :| OccursAt(s[1..], q, k);
        assert s[1..][k..k + |q|] == s[k + 1..k + 1 + |q|];
        assert OccursAt(s, q, k + 1);
      }
      if k :| OccursAt(s, q, k) {
        if k > 0 {
          assert s[1..][k - 1..k - 1 + |q|] == s[k..k + |q|];
          assert OccursAt(s[1..], q, k - 1);
        } else {
          assert IsPrefix(q, s);
        }
      }
    } else {
      if k :| OccursAt(s, q, k) {
        assert IsPrefix(q, s);
      }
    }
  }

  /**
   * PostgreSQL's `s LIKE pat` with the default escape character: `%` matches
   * any run of characters, `_` any single character, `\c` the character `c`,
   * every other character itself. A pattern that ends in a lone `\` is an
   * error in PostgreSQL; it matches nothing here (no pattern built below has one).
   */
  predicate Like(s: string, pat: string)
    decreases |pat|, |s|
  {
    if pat == [] then s == []
    else if pat[0] == '%' then Like(s, pat[1..]) || (s != [] && Like(s[1..], pat))
    else if pat[0] == '_' then s != [] && Like(s[1..], pat[1..])
    else if pat[0] == '\\' then |pat| >= 2 && s != [] && s[0] == pat[1] && Like(s[1..], pat[2..])
    else s != [] && s[0] == pat[0] && Like(s[1..], pat[1..])
  }

  /** The characters LIKE gives a meaning of their own. */
  predicate IsLikeSpecial(c: char) {
    c == '%' || c == '_' || c == '\\'
  }

  /** `q` uses none of LIKE's special characters. */
  predicate IsPlain(q: string) {
    forall i :: 0 <= i < |q| ==> !IsLikeSpecial(q[i])
  }

  /** Puts the escape character in front of every special character of `q`. */
  function EscapeLike(q: string): (r: string)
    ensures |q| <= |r| <= 2 * |q|
    decreases |q|
  {
    if q == [] then []
    else (if IsLikeSpecial(q[0]) then ['\\', q[0]] else [q[0]]) + EscapeLike(q[1..])
  }

  /** Escaping leaves a plain text as it is. */
  lemma {:induction false} EscapePlain(q: string)
    requires IsPlain(q)
    ensures EscapeLike(q) == q
    decreases |q|
  {
    if q != [] {
      assert IsPlain(q[1..]) by {
        forall i | 0 <= i < |q[1..]| ensures !IsLikeSpecial(q[1..][i]) {
          assert q[1..][i] == q[i + 1];
        }
      }
      EscapePlain(q[1..]);
      assert q == [q[0]] + q[1..];
    }
  }

  /** A pattern of a single `%` matches every text. */
  lemma {:induction false} LikeAnything(s: string)
    ensures Like(s, "%")
    decreases |s|
  {
    assert "%"[1..] == "";
    if s != [] {
      LikeAnything(s[1..]);
    }
  }

  /** A non-empty prefix is its first character followed by a prefix of the rest. */
  lemma PrefixStep(q: string, s: string)
    requires q != [] && s != []
    ensures IsPrefix(q, s) <==> s[0] == q[0] && IsPrefix(q[1..], s[1..])
  {
    if s[0] == q[0] && IsPrefix(q[1..], s[1..]) {
      assert s[..|q|] == [s[0]] + s[1..][..|q[1..]|];
      assert q == [q[0]] + q[1..];
    }
    if IsPrefix(q, s) {
      assert s[1..][..|q[1..]|] == s[..|q|][1..];
    }
  }

  /** The first (possibly escaped) character of an escaped text matches itself only. */
  lemma LikeEscapedHead(s: string, q: string, rest: string)
    requires q != []
    ensures Like(s, EscapeLike(q) + rest) <==> s != [] && s[0] == q[0] && Like(s[1..], EscapeLike(q[1..]) + rest)
  {
    var head := if IsLikeSpecial(q[0]) then ['\\', q[0]] else [q[0]];
    var tail := EscapeLike(q[1..]) + rest;
    var pat := EscapeLike(q) + rest;
    assert pat == head + tail;
    if IsLikeSpecial(q[0]) {
      assert pat[0] == '\\' && pat[1] == q[0] && pat[2..] == tail;
    } else {
      assert pat[0] == q[0] && pat[1..] == tail;
    }
  }

  /** An escaped text at the head of a pattern matches exactly that text, literally. */
  lemma {:induction false} LikeEscapedPrefix(s: string, q: string, rest: string)
    ensures Like(s, EscapeLike(q) + rest) <==> IsPrefix(q, s) && Like(s[|q|..], rest)
    decreases |q|
  {
    if q == [] {
      assert EscapeLike(q) + rest == rest;
      assert s[|q|..] == s;
    } else {
      LikeEscapedHead(s, q, rest);
      if s != [] {
        LikeEscapedPrefix(s[1..], q[1..], rest);
        PrefixStep(q, s);
        if |q| <= |s| {
          assert s[1..][|q[1..]|..] == s[|q|..];
        }
      }
    }
  }

  /** The LIKE pattern that finds `q` anywhere in a text. */
  function ContainsPattern(q: string): string {
    "%" + EscapeLike(q) + "%"
  }

  /** The pattern built from the escaped text matches exactly the texts that contain it. */
  lemma {:induction false} LikeContains(s: string, q: string)
    ensures Like(s, ContainsPattern(q)) <==> Contains(s, q)
    decreases |s|
  {
    var inner := EscapeLike(q) + "%";
    var pat := ContainsPattern(q);
    assert pat == "%" + inner;
    assert pat[0] == '%' && pat[1..] == inner;
    assert Like(s, pat) <==> Like(s, inner) || (s != [] && Like(s[1..], pat));
    LikeEscapedPrefix(s, q, "%");
    if |q| <= |s| {
      LikeAnything(s[|q|..]);
    }
    assert Like(s, inner) <==> IsPrefix(q, s);
    if s != [] {
      LikeContains(s[1..], q);
    }
  }
}
