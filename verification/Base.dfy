/** Small building blocks shared by the lookup engine: an optional value,
    the character classes JavaScript regular expressions use, ASCII case
    mapping and a first-occurrence search in a string. */
module Base {

  datatype Option<+T> = None | Some(value: T)

  predicate IsAsciiUpper(c: char) { 'A' <= c <= 'Z' }

  predicate IsAsciiLower(c: char) { 'a' <= c <= 'z' }

  /** The characters `\w` matches, and so the ones that decide where `\b` holds. */
  predicate IsWordChar(c: char) {
    IsAsciiLower(c) || IsAsciiUpper(c) || ('0' <= c <= '9') || c == '_'
  }

  /** The characters `\s` matches in a JavaScript regular expression. */
  predicate IsJsSpace(c: char) {
    || c == ' ' || c == '\t' || c == '\n' || c == '\r' || c == '\U{000B}' || c == '\U{000C}'
    || c == '\U{00A0}' || c == '\U{1680}' || ('\U{2000}' <= c <= '\U{200A}')
    || c == '\U{2028}' || c == '\U{2029}' || c == '\U{202F}' || c == '\U{205F}'
    || c == '\U{3000}' || c == '\U{FEFF}'
  }

  /** Characters with a special meaning in a regular expression source. */
  predicate IsRegexMeta(c: char) {
    c in "\\^$.|?*+()[]{}"
  }

  /** The characters that end a line for `^`, `$` and `.` in a regular
      expression. */
  predicate IsLineTerminator(c: char) {
    c == '\n' || c == '\r' || c == '\U{2028}' || c == '\U{2029}'
  }

  function ToLowerAscii(c: char): (d: char)
    ensures !IsAsciiUpper(d)
    ensures !IsAsciiUpper(c) ==> d == c
  {
    if IsAsciiUpper(c) then (c as int + 32) as char else c
  }

  function ToUpperAscii(c: char): (d: char)
    ensures !IsAsciiLower(d)
    ensures !IsAsciiLower(c) ==> d == c
    ensures ToLowerAscii(d) == ToLowerAscii(c)
  {
    if IsAsciiLower(c) then (c as int - 32) as char else c
  }

  /** The string with every ASCII capital replaced by its small letter. */
  function LowerAscii(s: string): (r: string)
    ensures |r| == |s|
    ensures forall k :: 0 <= k < |s| ==> r[k] == ToLowerAscii(s[k])
  {
    seq(|s|, k requires 0 <= k < |s| => ToLowerAscii(s[k]))
  }

  /** No character of `s` is `c`. */
  predicate Lacks(s: string, c: char)
  {
    forall k :: 0 <= k < |s| ==> s[k] != c
  }

  /** The first position at or after `from` that holds `c`, if any. */
  function IndexOf(s: string, c: char, from: nat): (r: Option<nat>)
    requires from <= |s|
    ensures r.Some? ==> from <= r.value < |s| && s[r.value] == c
    decreases |s| - from
  {
    if from == |s| then None
    else if s[from] == c then Some(from)
    else IndexOf(s, c, from + 1)
  }

  /** IndexOf finds the first occurrence: nothing before it holds `c`, and
      when it finds nothing, no position from `from` on holds `c`. */
  lemma {:induction false} IndexOfSpec(s: string, c: char, from: nat)
    requires from <= |s|
    ensures IndexOf(s, c, from).Some? ==> forall k :: from <= k < IndexOf(s, c, from).value ==> s[k] != c
    ensures IndexOf(s, c, from).None? ==> forall k :: from <= k < |s| ==> s[k] != c
    decreases |s| - from
  {
    if from < |s| && s[from] != c {
      IndexOfSpec(s, c, from + 1);
    }
  }

  /** When no position from `from` on holds `c`, IndexOf finds nothing. */
  lemma {:induction false} IndexOfAbsent(s: string, c: char, from: nat)
    requires from <= |s|
    requires forall k :: from <= k < |s| ==> s[k] != c
    ensures IndexOf(s, c, from).None?
    decreases |s| - from
  {
    if from < |s| {
      IndexOfAbsent(s, c, from + 1);
    }
  }

  /** A position holding `c` with no `c` before it (from `from` on) is the
      one IndexOf finds. */
  lemma {:induction false} IndexOfAt(s: string, c: char, from: nat, i: nat)
    requires from <= i < |s| && s[i] == c
    requires forall k :: from <= k < i ==> s[k] != c
    ensures IndexOf(s, c, from) == Some(i)
    decreases i - from
  {
    if from < i {
      IndexOfAt(s, c, from + 1, i);
    }
  }

  /** In `pre + seg + post`, the first `c` at or after `seg` is the one that
      starts `post` when `seg` has none. */
  lemma IndexOfAfter(s: string, pre: string, seg: string, post: string, c: char)
    requires s == pre + seg + post
    requires Lacks(seg, c) && post != [] && post[0] == c
    ensures IndexOf(s, c, |pre|) == Some(|pre| + |seg|)
    ensures s[|pre|..|pre| + |seg|] == seg
  {
    forall k | |pre| <= k < |pre| + |seg| ensures s[k] != c {
      assert s[k] == seg[k - |pre|];
    }
    assert s[|pre| + |seg|] == c;
    assert IndexOf(s, c, |pre|) == Some(|pre| + |seg|) by { IndexOfAt(s, c, |pre|, |pre| + |seg|); }
    assert s[|pre|..|pre| + |seg|] == seg;
  }
}
