/** The record parser: the line pattern `^([^ ]+) \[([^\]]+)\] \/(.*?)\//`
    that splits an ENAMDICT line into its spelling, its reading and its first
    gloss, and `parseLine`, which keeps a line only when its gloss carries a
    recognised type code and cleans the romaji. */
module Parser {
  import opened Base
  import opened Records

  // ---------------------------------------------------------------------
  // The line pattern

  /** The three captures of the line pattern. */
  datatype LineParts = LineParts(kanji: string, kana: string, gloss: string)

  /** What the line pattern demands of each capture: a spelling without
      spaces, a reading without `]`, a gloss without `/`. */
  predicate WellFormed(p: LineParts)
  {
    p.kanji != [] && Lacks(p.kanji, ' ') && p.kana != [] && Lacks(p.kana, ']') && Lacks(p.gloss, '/')
  }

  /** The text the line pattern consumes: `KANJI [KANA] /GLOSS/`. */
  function Render(p: LineParts): string
  {
    p.kanji + " [" + p.kana + "] /" + p.gloss + "/"
  }

  /** Applies the line pattern to the start of a line. The spelling runs up to
      the first space, the reading up to the first `]`, the gloss up to the
      first `/` after ` /`. */
  function MatchLine(line: string): Option<LineParts>
  {
    match IndexOf(line, ' ', 0)
    case None => None
    case Some(sp) => MatchReading(line, sp)
  }

  /** The rest of the pattern once the spelling ends at the space `sp`. */
  function MatchReading(line: string, sp: nat): Option<LineParts>
    requires sp < |line|
  {
    if sp == 0 || sp + 1 == |line| || line[sp + 1] != '[' then None
    else
      match IndexOf(line, ']', sp + 2)
      case None => None
      case Some(cl) => MatchGloss(line, sp, cl)
  }

  /** The rest of the pattern once the reading ends at the `]` at `cl`. */
  function MatchGloss(line: string, sp: nat, cl: nat): Option<LineParts>
    requires sp + 2 <= cl < |line|
  {
    if cl == sp + 2 || cl + 2 >= |line| || line[cl + 1] != ' ' || line[cl + 2] != '/' then None
    else
      match IndexOf(line, '/', cl + 3)
      case None => None
      case Some(sl) => Some(LineParts(line[..sp], line[sp + 2..cl], line[cl + 3..sl]))
  }

  /** What the line pattern captures is well formed and is exactly how the
      line begins. */
  lemma MatchLineSound(line: string)
    ensures MatchLine(line).Some? ==> WellFormed(MatchLine(line).value) && Render(MatchLine(line).value) <= line
  {
    if MatchLine(line).Some? {
      var sp := IndexOf(line, ' ', 0).value;
      var cl := IndexOf(line, ']', sp + 2).value;
      var sl := IndexOf(line, '/', cl + 3).value;
      IndexOfSpec(line, ' ', 0);
      IndexOfSpec(line, ']', sp + 2);
      IndexOfSpec(line, '/', cl + 3);
      assert MatchLine(line).value == LineParts(line[..sp], line[sp + 2..cl], line[cl + 3..sl]);
      SlicesRender(line, sp, cl, sl);
    }
  }

  /** Cutting a line at the three separators and rendering the pieces gives
      back the line's head. */
  lemma SlicesRender(line: string, sp: nat, cl: nat, sl: nat)
    requires 0 < sp && sp + 2 < cl && cl + 2 < sl < |line|
    requires line[sp] == ' ' && line[sp + 1] == '[' && line[cl] == ']' && line[cl + 1] == ' '
    requires line[cl + 2] == '/' && line[sl] == '/'
    requires forall k :: 0 <= k < sp ==> line[k] != ' '
    requires forall k :: sp + 2 <= k < cl ==> line[k] != ']'
    requires forall k :: cl + 3 <= k < sl ==> line[k] != '/'
    ensures WellFormed(LineParts(line[..sp], line[sp + 2..cl], line[cl + 3..sl]))
    ensures Render(LineParts(line[..sp], line[sp + 2..cl], line[cl + 3..sl])) <= line
  {
    var p := LineParts(line[..sp], line[sp + 2..cl], line[cl + 3..sl]);
    assert line[..sl + 1] == line[..sp] + line[sp..sp + 2] + line[sp + 2..cl]
                             + line[cl..cl + 3] + line[cl + 3..sl] + line[sl..sl + 1];
    assert line[sp..sp + 2] == " [";
    assert line[cl..cl + 3] == "] /";
    assert line[sl..sl + 1] == "/";
    assert Render(p) == line[..sl + 1];
  }

  /** Every line that starts with a well-formed `KANJI [KANA] /GLOSS/` is
      split back into exactly those parts. */
  lemma MatchLineRendered(p: LineParts, rest: string)
    requires WellFormed(p)
    ensures MatchLine(Render(p) + rest) == Some(p)
  {
    RenderedSeparators(p, rest);
    MatchLineSeparated(Render(p) + rest, p);
  }

  /** The separators of `line` sit where the parts `p` put them, and the
      text between them is those parts. */
  predicate SeparatorsAt(line: string, p: LineParts)
  {
    var sp, cl := |p.kanji|, |p.kanji| + 2 + |p.kana|;
    var sl := cl + 3 + |p.gloss|;
    && 0 < sp && sp + 2 < cl && sl < |line|
    && IndexOf(line, ' ', 0) == Some(sp) && line[sp + 1] == '['
    && IndexOf(line, ']', sp + 2) == Some(cl) && line[cl + 1] == ' ' && line[cl + 2] == '/'
    && IndexOf(line, '/', cl + 3) == Some(sl)
    && line[..sp] == p.kanji && line[sp + 2..cl] == p.kana && line[cl + 3..sl] == p.gloss
  }

  /** A line whose separators sit where `p` puts them is split into `p`. */
  lemma MatchLineSeparated(line: string, p: LineParts)
    requires SeparatorsAt(line, p)
    ensures MatchLine(line) == Some(p)
  {
    var sp, cl := |p.kanji|, |p.kanji| + 2 + |p.kana|;
    var sl := cl + 3 + |p.gloss|;
    MatchLineAt(line, sp, cl, sl);
  }

  /** Where the separators of a rendered line are, as IndexOf finds them. */
  lemma RenderedSeparators(p: LineParts, rest: string)
    requires WellFormed(p)
    ensures SeparatorsAt(Render(p) + rest, p)
  {
    SpaceSeparator(p, rest);
    BracketSeparator(p, rest);
    SlashSeparator(p, rest);
  }

  lemma SpaceSeparator(p: LineParts, rest: string)
    requires WellFormed(p)
    ensures var line, sp := Render(p) + rest, |p.kanji|;
            IndexOf(line, ' ', 0) == Some(sp) && line[..sp] == p.kanji
  {
    var post := " [" + p.kana + "] /" + p.gloss + "/" + rest;
    Regroup(p.kanji, " [", p.kana, "] /", p.gloss, "/", rest);
    IndexOfAfter(Render(p) + rest, [], p.kanji, post, ' ');
  }

  lemma BracketSeparator(p: LineParts, rest: string)
    requires WellFormed(p)
    ensures var line, sp, cl := Render(p) + rest, |p.kanji|, |p.kanji| + 2 + |p.kana|;
            && IndexOf(line, ']', sp + 2) == Some(cl) && line[sp + 2..cl] == p.kana && line[sp + 1] == '['
  {
    var pre, post := p.kanji + " [", "] /" + p.gloss + "/" + rest;
    Regroup(p.kanji, " [", p.kana, "] /", p.gloss, "/", rest);
    var line := Render(p) + rest;
    assert line[|p.kanji| + 1] == pre[|p.kanji| + 1];
    IndexOfAfter(line, pre, p.kana, post, ']');
  }

  lemma SlashSeparator(p: LineParts, rest: string)
    requires WellFormed(p)
    ensures var line, cl := Render(p) + rest, |p.kanji| + 2 + |p.kana|;
            var sl := cl + 3 + |p.gloss|;
            && sl < |line| && line[cl + 1] == ' ' && line[cl + 2] == '/'
            && IndexOf(line, '/', cl + 3) == Some(sl) && line[cl + 3..sl] == p.gloss
  {
    var pre, post := p.kanji + " [" + p.kana + "] /", "/" + rest;
    Regroup(p.kanji, " [", p.kana, "] /", p.gloss, "/", rest);
    var line := Render(p) + rest;
    var cl := |p.kanji| + 2 + |p.kana|;
    assert line[cl + 1] == pre[cl + 1] && line[cl + 2] == pre[cl + 2];
    IndexOfAfter(line, pre, p.gloss, post, '/');
  }

  /** The three ways the separator lemmas cut a rendered line. */
  lemma Regroup<T>(a: seq<T>, b: seq<T>, c: seq<T>, d: seq<T>, e: seq<T>, f: seq<T>, r: seq<T>)
    ensures a + b + c + d + e + f + r == [] + a + (b + c + d + e + f + r)
    ensures a + b + c + d + e + f + r == (a + b) + c + (d + e + f + r)
    ensures a + b + c + d + e + f + r == (a + b + c + d) + e + (f + r)
  {
  }

  /** MatchLine when the three separators have been located. */
  lemma MatchLineAt(line: string, sp: nat, cl: nat, sl: nat)
    requires 0 < sp && sp + 2 < cl && cl + 2 < sl < |line|
    requires IndexOf(line, ' ', 0) == Some(sp) && line[sp + 1] == '['
    requires IndexOf(line, ']', sp + 2) == Some(cl) && line[cl + 1] == ' ' && line[cl + 2] == '/'
    requires IndexOf(line, '/', cl + 3) == Some(sl)
    ensures MatchLine(line) == Some(LineParts(line[..sp], line[sp + 2..cl], line[cl + 3..sl]))
  {
    assert MatchGloss(line, sp, cl) == Some(LineParts(line[..sp], line[sp + 2..cl], line[cl + 3..sl]));
    assert MatchReading(line, sp) == MatchGloss(line, sp, cl);
  }

  // ---------------------------------------------------------------------
  // The type group `\(([spugfmhrct,]+)\)`

  predicate IsTypeChar(c: char) { c in "spugfmhrct," }

  /** `s[a]` opens and `s[b]` closes a non-empty run of type letters. */
  predicate GroupAt(s: string, a: int, b: int)
  {
    0 <= a && a + 1 < b < |s| && s[a] == '(' && s[b] == ')'
    && forall k :: a < k < b ==> IsTypeChar(s[k])
  }

  /** The end of the run of type letters that starts at `i`. */
  function RunEnd(s: string, i: nat): (e: nat)
    requires i <= |s|
    ensures i <= e <= |s|
    ensures forall k :: i <= k < e ==> IsTypeChar(s[k])
    ensures e < |s| ==> !IsTypeChar(s[e])
    decreases |s| - i
  {
    if i == |s| || !IsTypeChar(s[i]) then i else RunEnd(s, i + 1)
  }

  /** The leftmost type group at or after `i`, as the positions of its
      parentheses: what a regular-expression search for the group finds. */
  function GroupSpanFrom(s: string, i: nat): (r: Option<(nat, nat)>)
    requires i <= |s|
    ensures r.Some? ==> i <= r.value.0 && GroupAt(s, r.value.0, r.value.1)
    ensures r.Some? ==> forall a, b :: i <= a < r.value.0 ==> !GroupAt(s, a, b)
    ensures r.None? ==> forall a, b :: i <= a ==> !GroupAt(s, a, b)
    decreases |s| - i
  {
    if i == |s| then None
    else
      var e := RunEnd(s, i + 1);
      assert forall b :: GroupAt(s, i, b) ==> b == e by {
        forall b | GroupAt(s, i, b) ensures b == e {
          assert !IsTypeChar(s[b]);
        }
      }
      if s[i] == '(' && i + 1 < e < |s| && s[e] == ')' then Some((i, e))
      else
        GroupSpanFrom(s, i + 1)
  }

  /** The letters of the leftmost type group of a gloss, if it has one. */
  function TypeGroup(gloss: string): (r: Option<string>)
    ensures r.None? <==> forall a, b :: !GroupAt(gloss, a, b)
    ensures r.Some? ==> exists a, b :: GroupAt(gloss, a, b) && r.value == gloss[a + 1..b]
                                      && forall a', b' :: GroupAt(gloss, a', b') ==> a <= a'
  {
    match GroupSpanFrom(gloss, 0)
    case None => None
    case Some((a, b)) => Some(gloss[a + 1..b])
  }

  // ---------------------------------------------------------------------
  // The type code `\b([sugfm])\b`

  predicate IsCode(c: char) { c in "sugfm" }

  /** `g[k]` is a recognised code standing alone between word boundaries. */
  predicate CodeAt(g: string, k: int)
  {
    0 <= k < |g| && IsCode(g[k])
    && (k == 0 || !IsWordChar(g[k - 1]))
    && (k + 1 == |g| || !IsWordChar(g[k + 1]))
  }

  /** The position of the leftmost standalone code at or after `k`. */
  function CodeFrom(g: string, k: nat): (r: Option<nat>)
    requires k <= |g|
    ensures r.Some? ==> k <= r.value && CodeAt(g, r.value)
    ensures r.Some? ==> forall j :: k <= j < r.value ==> !CodeAt(g, j)
    ensures r.None? ==> forall j :: k <= j ==> !CodeAt(g, j)
    decreases |g| - k
  {
    if k == |g| then None
    else if CodeAt(g, k) then Some(k)
    else CodeFrom(g, k + 1)
  }

  /** The table of expanded types; a code it lacks (only `u`) is "unknown". */
  function CategoryOf(code: char): Category
  {
    if code == 's' then Surname
    else if code == 'g' || code == 'f' || code == 'm' then Given
    else Unknown
  }

  // ---------------------------------------------------------------------
  // Romaji clean-up `name.replace(/\s*\(.*?\)|,.*$/g, "")`

  function LeadingSpaces(s: string): (n: nat)
    ensures n <= |s|
    ensures forall k :: 0 <= k < n ==> IsJsSpace(s[k])
    ensures n < |s| ==> !IsJsSpace(s[n])
  {
    if s == [] || !IsJsSpace(s[0]) then 0 else 1 + LeadingSpaces(s[1..])
  }

  /** No `(` in `s` is followed, anywhere later, by a `)`. */
  predicate NoAside(s: string)
  {
    forall i, j :: 0 <= i < j < |s| && s[i] == '(' ==> s[j] != ')'
  }

  /** Scans left to right: a parenthesised aside with the whitespace before it
      is removed, the first comma that is not inside one cuts off the rest,
      and every other character is kept. */
  function CleanRomaji(s: string): (r: string)
    ensures Lacks(r, ',')
    ensures NoAside(r)
    ensures forall c :: Lacks(s, c) ==> Lacks(r, c)
    ensures |r| <= |s|
    decreases |s|
  {
    if s == [] then []
    else
      var w := LeadingSpaces(s);
      var close := if w < |s| && s[w] == '(' then IndexOf(s, ')', w + 1) else None;
      match close
      case Some(e) =>
        assert forall c :: Lacks(s, c) ==> Lacks(s[e + 1..], c);
        CleanRomaji(s[e + 1..])
      case None =>
        if s[0] == ',' then []
        else
          var tail := CleanRomaji(s[1..]);
          assert forall c :: Lacks(s, c) ==> Lacks(s[1..], c);
          assert s[0] == '(' ==> w == 0 && Lacks(s[1..], ')') by {
            if s[0] == '(' { IndexOfSpec(s, ')', 1); }
          }
          [s[0]] + tail
  }

  /** A string without commas and without closed asides is left unchanged. */
  lemma {:induction false} CleanRomajiFixed(s: string)
    requires Lacks(s, ',') && NoAside(s)
    ensures CleanRomaji(s) == s
    decreases |s|
  {
    if s != [] {
      NoAsideHead(s);
      CleanRomajiKeep(s);
      NoAsideTail(s);
      CleanRomajiFixed(s[1..]);
      assert s == [s[0]] + s[1..];
    }
  }

  /** In text without closed asides, an opening `(` is never closed. */
  lemma NoAsideHead(s: string)
    requires s != [] && NoAside(s)
    ensures var w := LeadingSpaces(s);
            w < |s| && s[w] == '(' ==> IndexOf(s, ')', w + 1).None?
  {
    var w := LeadingSpaces(s);
    if w < |s| && s[w] == '(' {
      assert forall j :: w + 1 <= j < |s| ==> s[j] != ')';
      IndexOfAbsent(s, ')', w + 1);
    }
  }

  /** Dropping the first character keeps both properties. */
  lemma NoAsideTail(s: string)
    requires s != [] && Lacks(s, ',') && NoAside(s)
    ensures Lacks(s[1..], ',') && NoAside(s[1..])
  {
    forall i, j | 0 <= i < j < |s[1..]| && s[1..][i] == '('
      ensures s[1..][j] != ')'
    {
      assert s[i + 1] == '(';
    }
  }

  /** Cleaning twice is cleaning once. */
  lemma CleanRomajiIdempotent(s: string)
    ensures CleanRomaji(CleanRomaji(s)) == CleanRomaji(s)
  {
    CleanRomajiFixed(CleanRomaji(s));
  }

  /** The first comma outside an aside cuts off the rest: text before it
      that holds no comma and no closed aside is kept as it is. An opening
      `(` in that text is left alone as long as no `)` follows it anywhere,
      so `Abe (x, y` becomes `Abe (x`. */
  lemma {:induction false} CleanRomajiComma(p: string, t: string)
    requires Lacks(p, ',') && NoAside(p)
    requires Lacks(p, '(') || Lacks(t, ')')
    ensures CleanRomaji(p + "," + t) == p
    decreases |p|
  {
    if p != [] {
      var q := p[1..];
      assert Lacks(q, ',') && NoAside(q) && (Lacks(q, '(') || Lacks(t, ')')) by {
        NoAsideTail(p);
        LacksTail(p, '(');
      }
      CleanRomajiComma(q, t);
      CommaHeadKept(p, t);
      assert p == [p[0]] + q;
    } else {
      CommaAtStart(t);
      assert p + "," + t == "," + t;
    }
  }

  /** A leading comma cuts off everything. */
  lemma CommaAtStart(t: string)
    ensures CleanRomaji("," + t) == []
  {
    var s := "," + t;
    assert s[0] == ',';
  }

  /** A character missing from a text is missing from its tail. */
  lemma LacksTail(p: string, c: char)
    requires p != []
    ensures Lacks(p, c) ==> Lacks(p[1..], c)
  {
    if Lacks(p, c) {
      forall k | 0 <= k < |p[1..]| ensures p[1..][k] != c {
        assert p[1..][k] == p[k + 1];
      }
    }
  }

  /** The first character before such a comma is kept. */
  lemma CommaHeadKept(p: string, t: string)
    requires p != [] && Lacks(p, ',') && NoAside(p)
    requires Lacks(p, '(') || Lacks(t, ')')
    ensures CleanRomaji(p + "," + t) == [p[0]] + CleanRomaji(p[1..] + "," + t)
  {
    var s := p + "," + t;
    CommaNoClose(p, t);
    assert s[0] == p[0];
    CleanRomajiKeep(s);
    assert s[1..] == p[1..] + "," + t;
  }

  /** Before such a comma, a `(` after the leading whitespace is never
      closed. */
  lemma CommaNoClose(p: string, t: string)
    requires Lacks(p, ',') && NoAside(p)
    requires Lacks(p, '(') || Lacks(t, ')')
    ensures var s := p + "," + t;
            var w := LeadingSpaces(s);
            w < |s| && s[w] == '(' ==> IndexOf(s, ')', w + 1).None?
  {
    var s := p + "," + t;
    var w := LeadingSpaces(s);
    assert s[|p|] == ',';
    assert !IsJsSpace(s[|p|]);
    assert w <= |p|;
    if w < |s| && s[w] == '(' {
      assert w < |p| && p[w] == '(';
      forall j | w + 1 <= j < |s| ensures s[j] != ')' {
        if j < |p| {
          assert s[j] == p[j];
        } else if j > |p| {
          assert s[j] == t[j - |p| - 1];
        }
      }
      IndexOfAbsent(s, ')', w + 1);
    }
  }

  /** An aside with the whitespace before it is removed: the text before it,
      free of `(` and `,` and not ending in whitespace, is kept, and the
      cleaning goes on after the `)`. */
  lemma CleanRomajiAside(p: string, w: string, x: string, t: string)
    requires Lacks(p, '(') && Lacks(p, ',') && (p == [] || !IsJsSpace(p[|p| - 1]))
    requires forall k :: 0 <= k < |w| ==> IsJsSpace(w[k])
    requires Lacks(x, ')')
    ensures CleanRomaji(p + w + "(" + x + ")" + t) == p + CleanRomaji(t)
  {
    var rest := w + "(" + x + ")" + t;
    assert p + w + "(" + x + ")" + t == p + rest;
    CleanRomajiPrefix(p, rest);
    AsideAtStart(w, x, t);
  }

  /** A second spelling after a comma is dropped. */
  lemma CommaExample()
    ensures CleanRomaji("Abe, Abe") == "Abe"
  {
    assert "Abe, Abe" == "Abe" + "," + " Abe";
    CleanRomajiComma("Abe", " Abe");
  }

  /** An unclosed bracket is no aside: the comma still cuts. */
  lemma UnclosedCommaExample()
    ensures CleanRomaji("Abe (x, y") == "Abe (x"
  {
    assert "Abe (x, y" == "Abe (x" + "," + " y";
    assert Lacks(" y", ')');
    CleanRomajiComma("Abe (x", " y");
  }

  /** A bracketed remark and the space before it are dropped. */
  lemma AsideExample()
    ensures CleanRomaji("Abe (p)") == "Abe"
  {
    assert "Abe (p)" == "Abe" + " " + "(" + "p" + ")" + "";
    CleanRomajiAside("Abe", " ", "p", "");
  }

  /** Text free of `(` and `,` that does not end in whitespace is kept in
      front of whatever follows it. */
  lemma {:induction false} CleanRomajiPrefix(p: string, rest: string)
    requires Lacks(p, '(') && Lacks(p, ',') && (p == [] || !IsJsSpace(p[|p| - 1]))
    ensures CleanRomaji(p + rest) == p + CleanRomaji(rest)
    decreases |p|
  {
    if p != [] {
      var q := p[1..];
      assert Lacks(q, '(') && Lacks(q, ',') by {
        forall k | 0 <= k < |q| ensures q[k] != '(' && q[k] != ',' { assert q[k] == p[k + 1]; }
      }
      assert q == [] || !IsJsSpace(q[|q| - 1]) by {
        if q != [] { assert q[|q| - 1] == p[|p| - 1]; }
      }
      PrefixHeadKept(p, rest);
      CleanRomajiPrefix(q, rest);
      ConsAppend(p, CleanRomaji(rest));
    } else {
      assert p + rest == rest;
    }
  }

  /** Splitting off the head commutes with appending. */
  lemma ConsAppend(p: string, r: string)
    requires p != []
    ensures p + r == [p[0]] + (p[1..] + r)
  {
    assert p == [p[0]] + p[1..];
  }

  /** The first character of such a text is kept. */
  lemma PrefixHeadKept(p: string, rest: string)
    requires p != [] && Lacks(p, '(') && Lacks(p, ',') && !IsJsSpace(p[|p| - 1])
    ensures CleanRomaji(p + rest) == [p[0]] + CleanRomaji(p[1..] + rest)
  {
    var s := p + rest;
    assert s[0] == p[0];
    assert s[|p| - 1] == p[|p| - 1];
    assert LeadingSpaces(s) < |p|;
    assert s[LeadingSpaces(s)] == p[LeadingSpaces(s)];
    CleanRomajiKeep(s);
    assert s[1..] == p[1..] + rest;
  }

  /** A first character that is neither a comma nor the start of a closed
      aside is kept. */
  lemma CleanRomajiKeep(s: string)
    requires s != [] && s[0] != ','
    requires LeadingSpaces(s) < |s| && s[LeadingSpaces(s)] == '(' ==> IndexOf(s, ')', LeadingSpaces(s) + 1).None?
    ensures CleanRomaji(s) == [s[0]] + CleanRomaji(s[1..])
  {
  }

  /** A text that starts with whitespace and an aside loses both. */
  lemma AsideAtStart(w: string, x: string, t: string)
    requires forall k :: 0 <= k < |w| ==> IsJsSpace(w[k])
    requires Lacks(x, ')')
    ensures CleanRomaji(w + "(" + x + ")" + t) == CleanRomaji(t)
  {
    var s := w + "(" + x + ")" + t;
    assert s[|w|] == '(';
    assert LeadingSpaces(s) == |w| by {
      forall k | 0 <= k < |w| ensures IsJsSpace(s[k]) { assert s[k] == w[k]; }
    }
    assert s == (w + "(") + x + (")" + t);
    IndexOfAfter(s, w + "(", x, ")" + t, ')');
    assert s[|w| + 1 + |x| + 1..] == t;
  }

  /** The characters a romanised name may hold for the type group after it to
      be the only thing cleaned away. */
  predicate PlainName(name: string)
  {
    forall k :: 0 <= k < |name| ==> name[k] != '(' && name[k] != ',' && name[k] != '/' && !IsJsSpace(name[k])
  }

  /** A romanised name followed by its type group, as in `Andou (s)`, is
      cleaned back to the name. */
  lemma {:induction false} CleanNameWithCodes(name: string, codes: string)
    requires PlainName(name)
    requires Lacks(codes, ')')
    ensures CleanRomaji(name + " (" + codes + ")") == name
    decreases |name|
  {
    var s := name + " (" + codes + ")";
    if name == [] {
      assert s == " (" + codes + ")";
      assert LeadingSpaces(s[1..]) == 0;
      assert LeadingSpaces(s) == 1;
      forall k | 2 <= k < |s| - 1 ensures s[k] != ')' {
        assert s[k] == codes[k - 2];
      }
      IndexOfAt(s, ')', 2, |s| - 1);
      assert s[|s|..] == [];
    } else {
      assert s[0] == name[0];
      assert LeadingSpaces(s) == 0;
      assert s[1..] == name[1..] + " (" + codes + ")";
      CleanNameWithCodes(name[1..], codes);
      assert [name[0]] + name[1..] == name;
    }
  }

  // ---------------------------------------------------------------------
  // parseLine

  /** parseLine on the captures of the line pattern: no record unless the
      gloss has a type group holding a standalone code; otherwise the first
      such code gives the category, the spelling and the reading are copied,
      and the romaji is the cleaned gloss. */
  function ParseGloss(kanji: string, kana: string, name: string): (r: Option<Record>)
    ensures r.Some? <==> TypeGroup(name).Some? && exists k :: CodeAt(TypeGroup(name).value, k)
    ensures r.Some? ==> exists k :: CodeAt(TypeGroup(name).value, k)
                                    && (forall j :: 0 <= j < k ==> !CodeAt(TypeGroup(name).value, j))
                                    && r.value.category == CategoryOf(TypeGroup(name).value[k])
    ensures r.Some? ==> r.value.kanji == kanji && r.value.kana == kana
    ensures r.Some? ==> r.value.romaji == CleanRomaji(name)
  {
    match TypeGroup(name)
    case None => None
    case Some(group) =>
      match CodeFrom(group, 0)
      case None => None
      case Some(k) => Some(Record(CleanRomaji(name), kanji, kana, CategoryOf(group[k])))
  }

  /** A line of the dictionary, turned into a record or into nothing. */
  function ParseLine(line: string): Option<Record>
  {
    match MatchLine(line)
    case None => None
    case Some(p) => ParseGloss(p.kanji, p.kana, p.gloss)
  }

  /** A line gives a record only when the line pattern matches it, and then
      exactly what parseLine makes of the three captures; the romaji has
      neither a comma nor a closed aside left. */
  lemma ParseLineGloss(line: string)
    ensures ParseLine(line).Some? ==> MatchLine(line).Some?
    ensures MatchLine(line).Some? ==>
              ParseLine(line) == ParseGloss(MatchLine(line).value.kanji, MatchLine(line).value.kana, MatchLine(line).value.gloss)
    ensures ParseLine(line).Some? ==> Lacks(ParseLine(line).value.romaji, ',') && NoAside(ParseLine(line).value.romaji)
  {
  }

  /** A parsed record's spelling and reading are the non-empty text the line
      starts with, in the form `<kanji> [<kana>] /`. */
  lemma ParseLineHead(line: string)
    ensures ParseLine(line).Some? ==>
              var r := ParseLine(line).value;
              r.kanji != [] && Lacks(r.kanji, ' ') && r.kana != [] && Lacks(r.kana, ']')
              && r.kanji + " [" + r.kana + "] /" <= line
  {
    MatchLineHead(line);
  }

  lemma MatchLineHead(line: string)
    ensures MatchLine(line).Some? ==>
              var p := MatchLine(line).value;
              p.kanji != [] && Lacks(p.kanji, ' ') && p.kana != [] && Lacks(p.kana, ']')
              && p.kanji + " [" + p.kana + "] /" <= line
  {
    MatchLineSound(line);
    if MatchLine(line).Some? {
      var p := MatchLine(line).value;
      assert Render(p) == (p.kanji + " [" + p.kana + "] /") + (p.gloss + "/");
    }
  }

  /** A line written as `KANJI [KANA] /Name (c)/...` with a recognised code
      `c` parses to the record that carries exactly those parts. */
  lemma ParseRendered(kanji: string, kana: string, name: string, code: char, rest: string)
    requires kanji != [] && Lacks(kanji, ' ') && kana != [] && Lacks(kana, ']')
    requires PlainName(name)
    requires IsCode(code)
    ensures ParseLine(kanji + " [" + kana + "] /" + name + " (" + [code] + ")/" + rest)
            == Some(Record(name, kanji, kana, CategoryOf(code)))
  {
    var gloss := name + " (" + [code] + ")";
    var p := LineParts(kanji, kana, gloss);
    forall k | 0 <= k < |gloss| ensures gloss[k] != '/' {
      if k < |name| { assert gloss[k] == name[k]; }
    }
    assert kanji + " [" + kana + "] /" + name + " (" + [code] + ")/" + rest == Render(p) + rest;
    MatchLineRendered(p, rest);
    ParseNameWithCode(kanji, kana, name, code);
  }

  /** The gloss `NAME (c)` yields the record of NAME with the category of c. */
  lemma ParseNameWithCode(kanji: string, kana: string, name: string, code: char)
    requires PlainName(name)
    requires IsCode(code)
    ensures ParseGloss(kanji, kana, name + " (" + [code] + ")") == Some(Record(name, kanji, kana, CategoryOf(code)))
  {
    var gloss := name + " (" + [code] + ")";
    var a, b := |name| + 1, |name| + 3;
    assert gloss[a] == '(' && gloss[a + 1] == code && gloss[b] == ')';
    assert GroupAt(gloss, a, b);
    forall k | 0 <= k < a ensures gloss[k] != '(' {
      if k < |name| { assert gloss[k] == name[k]; }
    }
    var g := TypeGroup(gloss);
    assert g.Some?;
    var a0, b0 :| GroupAt(gloss, a0, b0) && g.value == gloss[a0 + 1..b0]
                  && forall a', b' :: GroupAt(gloss, a', b') ==> a0 <= a';
    assert a0 == a;
    assert b0 == b by { assert !IsTypeChar(gloss[b]); }
    assert g.value == [code];
    assert CodeAt([code], 0);
    assert CodeFrom([code], 0) == Some(0);
    CleanNameWithCodes(name, [code]);
  }
}
