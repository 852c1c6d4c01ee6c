/** The pattern `find` builds from a romanised query. `oo` is first written
    `ou`. Then each `a`, `e`, `i`, `u` may be doubled, each `o` may be followed
    by `o` or `u`, and each `n` may be followed by an apostrophe. The pattern
    is matched case-insensitively. Tokens stand for the pieces the rewrites
    produce (`a` becomes `aa?`, `o` becomes `o[ou]?`, `n` becomes `n'?`). */
module Pattern {
  import opened Base

  /** One piece of the built pattern: a literal character, a character
      that may be repeated once (`cc?`), or a character that may be followed
      by one character from `next` (`c[next]?`). */
  datatype Token = Lit(c: char) | Doubled(c: char) | Follow(c: char, next: string)

  /** No `o` is directly followed by another `o`. */
  predicate NoDoubleO(s: string)
  {
    forall k :: 0 <= k < |s| - 1 ==> !(s[k] == 'o' && s[k + 1] == 'o')
  }

  /** `replace(/oo/g, "ou")`: scanning left to right, each non-overlapping
      `oo` becomes `ou` (so `ooo` gives `ouo`); upper-case `O` is left as it
      is. */
  function RewriteOO(s: string): (r: string)
    ensures |r| == |s|
    ensures NoDoubleO(r)
    ensures s != [] ==> r[0] == s[0]
    decreases |s|
  {
    if |s| >= 2 && s[0] == 'o' && s[1] == 'o' then "ou" + RewriteOO(s[2..])
    else if s == [] then []
    else [s[0]] + RewriteOO(s[1..])
  }

  /** The only change the rewrite makes is an `o` that follows an `o`
      becoming `u`. */
  lemma {:induction false} RewriteOOChange(s: string, k: nat)
    requires k < |s| && RewriteOO(s)[k] != s[k]
    ensures 0 < k && s[k - 1] == 'o' && s[k] == 'o' && RewriteOO(s)[k] == 'u'
    decreases |s|
  {
    if |s| >= 2 && s[0] == 'o' && s[1] == 'o' {
      if k >= 2 {
        assert RewriteOO(s)[k] == RewriteOO(s[2..])[k - 2] && s[k] == s[2..][k - 2];
        RewriteOOChange(s[2..], k - 2);
        assert s[k - 1] == s[2..][k - 3];
      }
    } else {
      assert RewriteOO(s)[k] == RewriteOO(s[1..])[k - 1] && s[k] == s[1..][k - 1];
      RewriteOOChange(s[1..], k - 1);
      assert s[k - 1] == s[1..][k - 2];
    }
  }

  /** The rewrite scans left to right: a character becomes `u` exactly when
      it is an `o` following an `o` that was itself kept as `o`, so `ooo`
      gives `ouo`. With the first character kept, this fixes the result. */
  lemma {:induction false} RewriteOOAt(s: string, k: nat)
    requires 0 < k < |s|
    ensures RewriteOO(s)[k] == if s[k] == 'o' && s[k - 1] == 'o' && RewriteOO(s)[k - 1] == 'o' then 'u' else s[k]
    decreases |s|
  {
    var r := RewriteOO(s);
    if |s| >= 2 && s[0] == 'o' && s[1] == 'o' {
      var r' := RewriteOO(s[2..]);
      assert r == "ou" + r';
      if k >= 3 {
        RewriteOOAt(s[2..], k - 2);
        assert r[k] == r'[k - 2] && r[k - 1] == r'[k - 3];
        assert s[k] == s[2..][k - 2] && s[k - 1] == s[2..][k - 3];
      } else if k == 2 {
        assert r[2] == r'[0] && s[2] == s[2..][0];
      }
    } else {
      var r' := RewriteOO(s[1..]);
      assert r == [s[0]] + r';
      if k >= 2 {
        RewriteOOAt(s[1..], k - 1);
        assert r[k] == r'[k - 1] && r[k - 1] == r'[k - 2];
        assert s[k] == s[1..][k - 1] && s[k - 1] == s[1..][k - 2];
      } else {
        assert r[1] == r'[0] && s[1] == s[1..][0];
      }
    }
  }

  /** A string without `oo` is left alone by the rewrite. */
  lemma {:induction false} RewriteOOFixed(s: string)
    requires NoDoubleO(s)
    ensures RewriteOO(s) == s
    decreases |s|
  {
    if s != [] {
      assert NoDoubleO(s[1..]) by {
        forall k | 0 <= k < |s[1..]| - 1 ensures !(s[1..][k] == 'o' && s[1..][k + 1] == 'o') {
          assert s[1..][k] == s[k + 1] && s[1..][k + 1] == s[k + 2];
        }
      }
      RewriteOOFixed(s[1..]);
    }
  }

  /** Rewriting twice is rewriting once. */
  lemma RewriteOOIdempotent(s: string)
    ensures RewriteOO(RewriteOO(s)) == RewriteOO(s)
  {
    RewriteOOFixed(RewriteOO(s));
  }

  predicate IsVowelAEIU(c: char) { c == 'a' || c == 'e' || c == 'i' || c == 'u' }

  /** The token the chain of replacements turns one character into, with its
      letters lower-cased since the pattern ignores ASCII case. `/([aeiu])/gi`
      and `/o/gi` ignore case, while `/n/g` does not: an upper-case `N` stays
      a plain letter. */
  function TokenFor(c: char): Token
  {
    var l := ToLowerAscii(c);
    if IsVowelAEIU(l) then Doubled(l)
    else if l == 'o' then Follow('o', "ou")
    else if c == 'n' then Follow('n', "'")
    else Lit(l)
  }

  /** The pattern built from a query whose `oo` has been rewritten. */
  function Expand(q: string): (p: seq<Token>)
    ensures |p| == |q|
  {
    if q == [] then [] else [TokenFor(q[0])] + Expand(q[1..])
  }

  /** The pattern `find` searches for. */
  function FindPattern(romaji: string): seq<Token>
  {
    Expand(RewriteOO(romaji))
  }

  /** Whether a pattern matches the whole of `s`, `s` having been lower-cased
      already. */
  predicate Matches(p: seq<Token>, s: string)
    decreases |p|
  {
    if p == [] then s == []
    else if s == [] || s[0] != p[0].c then false
    else
      match p[0]
      case Lit(_) => Matches(p[1..], s[1..])
      case Doubled(c) => Matches(p[1..], s[1..]) || (|s| >= 2 && s[1] == c && Matches(p[1..], s[2..]))
      case Follow(_, next) =>
        Matches(p[1..], s[1..]) || (|s| >= 2 && (exists k :: 0 <= k < |next| && next[k] == s[1]) && Matches(p[1..], s[2..]))
  }

  // ---------------------------------------------------------------------
  // The spellings a query stands for

  /** The ways one query character may be written in a dictionary entry,
      as lower-case text. */
  function Variants(c: char): set<string>
  {
    var l := ToLowerAscii(c);
    if IsVowelAEIU(l) then {[l], [l, l]}
    else if l == 'o' then {"o", "oo", "ou"}
    else if c == 'n' then {"n", "n'"}
    else {[l]}
  }

  /** `s` spells query `q` one character at a time, each character written as
      one of its variants. */
  predicate IsSpelling(q: string, s: string)
    decreases |q|
  {
    if q == [] then s == []
    else
      || (|s| >= 1 && s[..1] in Variants(q[0]) && IsSpelling(q[1..], s[1..]))
      || (|s| >= 2 && s[..2] in Variants(q[0]) && IsSpelling(q[1..], s[2..]))
  }

  /** The built pattern matches exactly the spellings of the query: a
      character's token accepts exactly its variants. */
  lemma {:induction false} MatchesExpandIff(q: string, s: string)
    ensures Matches(Expand(q), s) <==> IsSpelling(q, s)
    decreases |q|
  {
    if q != [] {
      var p := Expand(q);
      assert p[0] == TokenFor(q[0]) && p[1..] == Expand(q[1..]);
      if |s| >= 1 {
        MatchesExpandIff(q[1..], s[1..]);
        assert s[..1] == [s[0]];
      }
      if |s| >= 2 {
        MatchesExpandIff(q[1..], s[2..]);
        assert s[..2] == [s[0], s[1]];
        assert "ou"[0] == 'o' && "ou"[1] == 'u' && "'"[0] == '\'';
      }
    }
  }

  /** Every query is a spelling of itself once lower-cased. */
  lemma {:induction false} SpellingOfSelf(q: string)
    ensures IsSpelling(q, LowerAscii(q))
    decreases |q|
  {
    if q != [] {
      var s := LowerAscii(q);
      assert s[1..] == LowerAscii(q[1..]);
      assert s[..1] == [ToLowerAscii(q[0])];
      SpellingOfSelf(q[1..]);
    }
  }

  /** The long vowels ENAMDICT writes: a query with a single vowel also finds
      the entry that writes it doubled, and `o` also finds `ou`. */
  lemma LongVowels(q1: string, v: char, q2: string)
    requires IsVowelAEIU(v) || v == 'o'
    ensures IsSpelling(q1 + [v] + q2, LowerAscii(q1) + [v, if v == 'o' then 'u' else v] + LowerAscii(q2))
  {
    var long := [v, if v == 'o' then 'u' else v];
    SpellingOfSelf(q2);
    SpellingCons(v, q2, long, LowerAscii(q2));
    SpellingPrefix(q1, [v] + q2, long + LowerAscii(q2));
    assert q1 + [v] + q2 == q1 + ([v] + q2);
    assert LowerAscii(q1) + long + LowerAscii(q2) == LowerAscii(q1) + (long + LowerAscii(q2));
  }

  /** The same at the level of `find`: for a query free of `oo`, which the
      first replacement leaves alone, a single vowel also finds its doubled
      form and `o` also finds `ou`. */
  lemma FindLongVowels(q1: string, v: char, q2: string)
    requires IsVowelAEIU(v) || v == 'o'
    requires NoDoubleO(q1 + [v] + q2)
    ensures IsSpelling(RewriteOO(q1 + [v] + q2), LowerAscii(q1) + [v, if v == 'o' then 'u' else v] + LowerAscii(q2))
  {
    RewriteOOFixed(q1 + [v] + q2);
    LongVowels(q1, v, q2);
  }

  /** A query holding `oo` is rewritten first: `find("too")` searches for
      `tou`, and the entry spelled `too` is not one of its spellings. */
  lemma RewrittenQueryMissesOO()
    ensures RewriteOO("too") == "tou"
    ensures !IsSpelling(RewriteOO("too"), "too")
  {
    assert RewriteOO("too") == "tou";
    assert !IsSpelling("tou", "too");
  }

  /** Writing one character as one of its variants in front of a spelling of
      the rest spells the whole. */
  lemma SpellingCons(c: char, q: string, s: string, t: string)
    requires s in Variants(c) && IsSpelling(q, t)
    ensures IsSpelling([c] + q, s + t)
  {
    assert ([c] + q)[0] == c && ([c] + q)[1..] == q;
    if |s| == 1 {
      assert (s + t)[..1] == s && (s + t)[1..] == t;
    } else {
      assert (s + t)[..2] == s && (s + t)[2..] == t;
    }
  }

  /** A query written as itself, lower-cased, in front of a spelling of the
      rest spells the whole. */
  lemma {:induction false} SpellingPrefix(q1: string, q: string, s: string)
    requires IsSpelling(q, s)
    ensures IsSpelling(q1 + q, LowerAscii(q1) + s)
    decreases |q1|
  {
    if q1 == [] {
      assert q1 + q == q && LowerAscii(q1) + s == s;
    } else {
      var l := ToLowerAscii(q1[0]);
      SpellingPrefix(q1[1..], q, s);
      assert [l] in Variants(q1[0]);
      SpellingCons(q1[0], q1[1..] + q, [l], LowerAscii(q1[1..]) + s);
      PrefixSplit(q1, q, s);
    }
  }

  lemma PrefixSplit(q1: string, q: string, s: string)
    requires q1 != []
    ensures q1 + q == [q1[0]] + (q1[1..] + q)
    ensures LowerAscii(q1) + s == [ToLowerAscii(q1[0])] + (LowerAscii(q1[1..]) + s)
  {
    assert q1 == [q1[0]] + q1[1..];
    assert LowerAscii(q1) == [ToLowerAscii(q1[0])] + LowerAscii(q1[1..]);
  }

  /** The queries the pattern construction handles as text: ASCII, no line
      terminator (the query stays within one line) and no character with a
      meaning in a regular expression. */
  predicate PlainQuery(q: string)
  {
    forall k :: 0 <= k < |q| ==> q[k] < '\U{0080}' && !IsRegexMeta(q[k]) && !IsLineTerminator(q[k])
  }
}
