/** `searchData`, `find` and `findKanji`. The dictionary text is given as its
    lines, split at the line terminators. A search keeps the lines the query
    selects, parses them, groups the records by the value of one field and
    returns the largest group. */
module Search {
  import opened Base
  import opened Records
  import opened Parser
  import opened Pattern
  import opened Accessors

  /** What selects a line. `ByPattern` stands for `find`'s regular expression
      `^.*?/PATTERN .*?$` with flags `igm`. `ByPrefix` stands for `findKanji`'s
      `^KANJI.*$` with flags `gm`. */
  datatype Query = ByPattern(pattern: seq<Token>) | ByPrefix(prefix: string)

  /** Whether the search expression matches the line. A pattern must match
      the whole text between some `/` and a later space, ignoring ASCII case.
      A prefix must start the line. */
  predicate LineMatches(line: string, q: Query)
  {
    match q
    case ByPattern(p) =>
      var l := LowerAscii(line);
      exists i, j :: 0 <= i < j < |l| && l[i] == '/' && l[j] == ' ' && Matches(p, l[i + 1..j])
    case ByPrefix(pre) => pre <= line
  }

  /** The records of the selected lines that parse, in the order of the
      lines. */
  function MatchedRecords(lines: seq<string>, q: Query, parse: string -> Option<Record>): (r: seq<Record>)
    ensures |r| <= |lines|
  {
    if lines == [] then []
    else
      var last := lines[|lines| - 1];
      var r0 := MatchedRecords(lines[..|lines| - 1], q, parse);
      if LineMatches(last, q) && parse(last).Some? then r0 + [parse(last).value] else r0
  }

  /** Every record found comes from a selected line, and every selected line
      that parses contributes its record. */
  lemma {:induction false} MatchedRecordsSpec(lines: seq<string>, q: Query, parse: string -> Option<Record>)
    ensures forall x :: x in MatchedRecords(lines, q, parse) ==>
              exists k :: 0 <= k < |lines| && LineMatches(lines[k], q) && parse(lines[k]) == Some(x)
    ensures forall k :: 0 <= k < |lines| && LineMatches(lines[k], q) && parse(lines[k]).Some? ==>
              parse(lines[k]).value in MatchedRecords(lines, q, parse)
  {
    if lines != [] {
      var init := lines[..|lines| - 1];
      MatchedRecordsSpec(init, q, parse);
      assert forall k :: 0 <= k < |init| ==> init[k] == lines[k];
    }
  }

  /** The records whose field `f` is `k`, in order: one entry of
      `nameLookup`. */
  function Group(recs: seq<Record>, f: Field, k: string): (g: seq<Record>)
    ensures |g| <= |recs|
    ensures forall x :: x in g <==> x in recs && FieldOf(x, f) == k
  {
    if recs == [] then []
    else
      var g0 := Group(recs[..|recs| - 1], f, k);
      var x := recs[|recs| - 1];
      assert recs == recs[..|recs| - 1] + [x];
      if FieldOf(x, f) == k then g0 + [x] else g0
  }

  /** The distinct values of field `f`, in order of first appearance: the
      keys of `nameLookup` in the order they were added. */
  function Keys(recs: seq<Record>, f: Field): (ks: seq<string>)
    ensures forall i, j :: 0 <= i < j < |ks| ==> ks[i] != ks[j]
    ensures forall k :: k in ks <==> Group(recs, f, k) != []
  {
    if recs == [] then []
    else
      var ks0 := Keys(recs[..|recs| - 1], f);
      var k := FieldOf(recs[|recs| - 1], f);
      assert Group(recs, f, k) != [];
      if k in ks0 then ks0 else ks0 + [k]
  }

  /** The number of records in each group. */
  function Size(recs: seq<Record>, f: Field, k: string): nat
  {
    |Group(recs, f, k)|
  }

  /** The first of `ks` whose group is largest: the first key after a stable
      sort by descending group size. */
  function FirstLargest(ks: seq<string>, recs: seq<Record>, f: Field): (b: Option<string>)
    ensures b.None? <==> ks == []
  {
    if ks == [] then None
    else
      var b0 := FirstLargest(ks[..|ks| - 1], recs, f);
      var k := ks[|ks| - 1];
      if b0.None? || Size(recs, f, k) > Size(recs, f, b0.value) then Some(k) else b0
  }

  /** The key picked is one of the keys, and no key has a larger group. */
  lemma {:induction false} FirstLargestSpec(ks: seq<string>, recs: seq<Record>, f: Field)
    ensures var b := FirstLargest(ks, recs, f);
            b.Some? ==> b.value in ks && forall k :: k in ks ==> Size(recs, f, k) <= Size(recs, f, b.value)
  {
    if ks != [] {
      var init := ks[..|ks| - 1];
      FirstLargestSpec(init, recs, f);
      assert forall k' :: k' in ks ==> k' in init || k' == ks[|ks| - 1];
    }
  }

  /** Among distinct keys, every key listed before the first largest one has
      a strictly smaller group. */
  lemma {:induction false} FirstLargestIsFirst(ks: seq<string>, recs: seq<Record>, f: Field, i: nat)
    requires forall a, c :: 0 <= a < c < |ks| ==> ks[a] != ks[c]
    requires i < |ks| && FirstLargest(ks, recs, f) == Some(ks[i])
    ensures forall j :: 0 <= j < i ==> Size(recs, f, ks[j]) < Size(recs, f, ks[i])
  {
    var n := |ks| - 1;
    if i == n {
      FirstLargestLast(ks, recs, f);
    } else {
      var init := ks[..n];
      assert FirstLargest(init, recs, f) == Some(ks[i]);
      assert init[i] == ks[i];
      FirstLargestIsFirst(init, recs, f, i);
      forall j | 0 <= j < i ensures Size(recs, f, ks[j]) < Size(recs, f, ks[i]) {
        assert ks[j] == init[j];
      }
    }
  }

  /** When the last key is the first largest, every earlier key has a
      strictly smaller group. */
  lemma FirstLargestLast(ks: seq<string>, recs: seq<Record>, f: Field)
    requires forall a, c :: 0 <= a < c < |ks| ==> ks[a] != ks[c]
    requires ks != [] && FirstLargest(ks, recs, f) == Some(ks[|ks| - 1])
    ensures forall j :: 0 <= j < |ks| - 1 ==> Size(recs, f, ks[j]) < Size(recs, f, ks[|ks| - 1])
  {
    var n := |ks| - 1;
    var init := ks[..n];
    var b0 := FirstLargest(init, recs, f);
    FirstLargestSpec(init, recs, f);
    if b0.Some? {
      assert b0.value != ks[n] by {
        var m :| 0 <= m < n && init[m] == b0.value;
      }
    }
    forall j | 0 <= j < n ensures Size(recs, f, ks[j]) < Size(recs, f, ks[n]) {
      assert ks[j] == init[j] && ks[j] in init;
    }
  }

  /** The key `searchData` picks. */
  function Winner(recs: seq<Record>, f: Field): Option<string>
  {
    FirstLargest(Keys(recs, f), recs, f)
  }

  /** What `searchData` returns, as written: no result when the picked key is
      the empty string, since `popularName ? ... : null` treats it as false. */
  function SearchAsWritten(lines: seq<string>, q: Query, f: Field, parse: string -> Option<Record>): Option<Entries>
  {
    var recs := MatchedRecords(lines, q, parse);
    match Winner(recs, f)
    case None => None
    case Some(k) => if |k| == 0 then None else Some(Entries(Group(recs, f, k), f))
  }

  /** What `searchData` evidently means: the largest group whenever some
      line was found. */
  function LargestGroup(lines: seq<string>, q: Query, f: Field, parse: string -> Option<Record>): Option<Entries>
  {
    var recs := MatchedRecords(lines, q, parse);
    match Winner(recs, f)
    case None => None
    case Some(k) => Some(Entries(Group(recs, f, k), f))
  }

  /** The search gives a result exactly when some selected line parses; the
      result is the group of one key, grouped by `f`, as large as any other
      group and larger than every group whose key came first. */
  lemma LargestGroupSpec(lines: seq<string>, q: Query, f: Field, parse: string -> Option<Record>)
    ensures var recs, r := MatchedRecords(lines, q, parse), LargestGroup(lines, q, f, parse);
            && (r.None? <==> recs == [])
            && (r.Some? ==> r.value.key == f && r.value.data != []
                            && var k := FieldOf(r.value.data[0], f);
                               && r.value.data == Group(recs, f, k)
                               && (forall x :: x in r.value.data ==> FieldOf(x, f) == k)
                               && (forall k' :: Size(recs, f, k') <= |r.value.data|)
                               && (forall i :: 0 <= i < |Keys(recs, f)| && Keys(recs, f)[i] == k ==>
                                     forall j :: 0 <= j < i ==> Size(recs, f, Keys(recs, f)[j]) < |r.value.data|))
  {
    var recs := MatchedRecords(lines, q, parse);
    WinnerNone(recs, f);
    if recs != [] {
      WinnerLargest(recs, f);
      WinnerFirst(recs, f);
    }
  }

  /** There is a winning key exactly when some record was found. */
  lemma WinnerNone(recs: seq<Record>, f: Field)
    ensures Winner(recs, f).None? <==> recs == []
  {
    if recs != [] {
      assert Group(recs, f, FieldOf(recs[0], f)) != [];
    }
  }

  /** The winning key's group is non-empty, shares the key, and is as large
      as any group. */
  lemma WinnerLargest(recs: seq<Record>, f: Field)
    requires recs != []
    ensures Winner(recs, f).Some?
    ensures var b := Winner(recs, f).value;
            var g := Group(recs, f, b);
            && g != [] && FieldOf(g[0], f) == b
            && forall k' :: Size(recs, f, k') <= |g|
  {
    WinnerNone(recs, f);
    var ks := Keys(recs, f);
    FirstLargestSpec(ks, recs, f);
    var b := Winner(recs, f).value;
    var g := Group(recs, f, b);
    assert g != [];
    assert FieldOf(g[0], f) == b by { assert g[0] in g; }
    forall k' ensures Size(recs, f, k') <= |g| {
      if k' !in ks {
        assert Group(recs, f, k') == [];
      }
    }
  }

  /** Every key listed before the winning key has a strictly smaller group. */
  lemma WinnerFirst(recs: seq<Record>, f: Field)
    requires Winner(recs, f).Some?
    ensures var b, ks := Winner(recs, f).value, Keys(recs, f);
            forall i :: 0 <= i < |ks| && ks[i] == b ==>
              forall j :: 0 <= j < i ==> Size(recs, f, ks[j]) < Size(recs, f, b)
  {
    var b, ks := Winner(recs, f).value, Keys(recs, f);
    forall i | 0 <= i < |ks| && ks[i] == b
      ensures forall j :: 0 <= j < i ==> Size(recs, f, ks[j]) < Size(recs, f, b)
    {
      FirstLargestIsFirst(ks, recs, f, i);
    }
  }

  /** The as-written search differs from the intended one only when the
      largest group's key is the empty string. */
  lemma SearchAsWrittenDiffers(lines: seq<string>, q: Query, f: Field, parse: string -> Option<Record>)
    ensures SearchAsWritten(lines, q, f, parse) != LargestGroup(lines, q, f, parse) <==>
              Winner(MatchedRecords(lines, q, parse), f) == Some([])
  {
  }

  // ---------------------------------------------------------------------
  // The search loop

  /** One more record: its key is added at the end if it is new, and the
      record joins the end of its own group. */
  lemma AppendRecord(recs: seq<Record>, x: Record, f: Field, k: string)
    ensures Keys(recs + [x], f) == if FieldOf(x, f) in Keys(recs, f) then Keys(recs, f) else Keys(recs, f) + [FieldOf(x, f)]
    ensures Group(recs + [x], f, k) == if FieldOf(x, f) == k then Group(recs, f, k) + [x] else Group(recs, f, k)
  {
    assert (recs + [x])[..|recs|] == recs;
  }

  /** One more line: its record, if it is selected and parses, is added at
      the end. */
  lemma AppendLine(lines: seq<string>, i: nat, q: Query, parse: string -> Option<Record>)
    requires i < |lines|
    ensures MatchedRecords(lines[..i + 1], q, parse)
            == if LineMatches(lines[i], q) && parse(lines[i]).Some?
               then MatchedRecords(lines[..i], q, parse) + [parse(lines[i]).value]
               else MatchedRecords(lines[..i], q, parse)
  {
    assert lines[..i + 1][..i] == lines[..i];
  }

  /** `keys` and `groups` are `nameLookup` for the records `recs`: the keys in
      order of first appearance, each mapped to its group. */
  ghost predicate Tabulates(recs: seq<Record>, f: Field, keys: seq<string>, groups: map<string, seq<Record>>)
  {
    && keys == Keys(recs, f)
    && (forall k :: k in groups <==> k in keys)
    && (forall k :: k in groups ==> groups[k] == Group(recs, f, k))
  }

  /** `nameLookup[key].push(entry)`, creating the group and adding the key
      when the key is new. */
  method AddRecord(ghost recs: seq<Record>, f: Field, rec: Record, keys: seq<string>, groups: map<string, seq<Record>>)
    returns (keys': seq<string>, groups': map<string, seq<Record>>)
    requires Tabulates(recs, f, keys, groups)
    ensures Tabulates(recs + [rec], f, keys', groups')
  {
    var key := FieldOf(rec, f);
    AppendRecord(recs, rec, f, key);
    if key in groups {
      keys', groups' := keys, groups[key := groups[key] + [rec]];
    } else {
      keys', groups' := keys + [key], groups[key := [rec]];
    }
    forall k | k in groups' ensures groups'[k] == Group(recs + [rec], f, k) {
      AppendRecord(recs, rec, f, k);
    }
  }

  /** The `regex.exec` loop of `searchData`: every selected line that parses
      is added to its group, a new key being added after the existing ones. */
  method CollectGroups(lines: seq<string>, q: Query, f: Field, parse: string -> Option<Record>) returns (keys: seq<string>, groups: map<string, seq<Record>>)
    ensures keys == Keys(MatchedRecords(lines, q, parse), f)
    ensures forall k :: k in groups <==> k in keys
    ensures forall k :: k in groups ==> groups[k] == Group(MatchedRecords(lines, q, parse), f, k)
  {
    keys, groups := [], map[];
    ghost var recs: seq<Record> := [];
    for i := 0 to |lines|
      invariant recs == MatchedRecords(lines[..i], q, parse)
      invariant Tabulates(recs, f, keys, groups)
    {
      AppendLine(lines, i, q, parse);
      if LineMatches(lines[i], q) {
        match parse(lines[i])
        case None =>
        case Some(rec) =>
          keys, groups := AddRecord(recs, f, rec, keys, groups);
          recs := recs + [rec];
      }
    }
    assert lines[..|lines|] == lines;
  }

  /** Sorting the keys by descending group size and taking the first. */
  method PickLargest(ghost recs: seq<Record>, f: Field, keys: seq<string>, groups: map<string, seq<Record>>)
    returns (best: Option<string>)
    requires forall k :: k in keys ==> k in groups && groups[k] == Group(recs, f, k)
    ensures best == FirstLargest(keys, recs, f)
    ensures best.Some? ==> best.value in keys
  {
    best := None;
    var bestSize := 0;
    for i := 0 to |keys|
      invariant best == FirstLargest(keys[..i], recs, f)
      invariant best.Some? ==> best.value in keys && bestSize == Size(recs, f, best.value)
    {
      FirstLargestStep(keys, i, recs, f);
      var k := keys[i];
      if best.None? || |groups[k]| > bestSize {
        best, bestSize := Some(k), |groups[k]|;
      }
    }
    assert keys[..|keys|] == keys;
  }

  /** FirstLargest of one more key compares it with the best so far, and only
      a strictly larger group replaces the best. */
  lemma FirstLargestStep(keys: seq<string>, i: nat, recs: seq<Record>, f: Field)
    requires i < |keys|
    ensures var b0 := FirstLargest(keys[..i], recs, f);
            && (b0.Some? ==> b0.value in keys)
            && FirstLargest(keys[..i + 1], recs, f)
               == if b0.None? || Size(recs, f, keys[i]) > Size(recs, f, b0.value) then Some(keys[i]) else b0
  {
    assert keys[..i + 1][..i] == keys[..i];
    var b0 := FirstLargest(keys[..i], recs, f);
    FirstLargestSpec(keys[..i], recs, f);
    if b0.Some? {
      var m :| 0 <= m < i && keys[..i][m] == b0.value;
      assert keys[m] == b0.value;
    }
  }

  /** `searchData` as written. */
  method SearchData(lines: seq<string>, q: Query, f: Field, parse: string -> Option<Record>) returns (r: Option<Entries>)
    ensures r == SearchAsWritten(lines, q, f, parse)
  {
    ghost var recs := MatchedRecords(lines, q, parse);
    var keys, groups := CollectGroups(lines, q, f, parse);
    var popular := PickLargest(recs, f, keys, groups);
    if popular.Some? && |popular.value| > 0 {
      r := Some(Entries(groups[popular.value], f));
    } else {
      r := None;
    }
  }

  /** `searchData` with the no-result test made on whether any key exists. */
  method SearchLargestGroup(lines: seq<string>, q: Query, f: Field, parse: string -> Option<Record>) returns (r: Option<Entries>)
    ensures r == LargestGroup(lines, q, f, parse)
  {
    ghost var recs := MatchedRecords(lines, q, parse);
    var keys, groups := CollectGroups(lines, q, f, parse);
    var popular := PickLargest(recs, f, keys, groups);
    if popular.Some? {
      r := Some(Entries(groups[popular.value], f));
    } else {
      r := None;
    }
  }

  // ---------------------------------------------------------------------
  // find and findKanji

  /** `find(romaji)`: no result for the empty query; otherwise the largest
      group, by romaji, of the records on lines where the text between some
      `/` and a later space spells the query after its `oo` rewrite. */
  method Find(lines: seq<string>, romaji: string) returns (r: Option<Entries>)
    requires PlainQuery(romaji)
    ensures romaji == [] ==> r.None?
    ensures romaji != [] ==> r == LargestGroup(lines, ByPattern(FindPattern(romaji)), RomajiField, ParseLine)
  {
    if romaji == [] {
      return None;
    }
    r := SearchLargestGroup(lines, ByPattern(FindPattern(romaji)), RomajiField, ParseLine);
  }

  /** The lines `find` selects are those where the text between a `/` and a
      later space, lower-cased, spells the `oo`-rewritten query. */
  lemma FindLineMatchesIff(line: string, romaji: string)
    ensures LineMatches(line, ByPattern(FindPattern(romaji))) <==>
              var l := LowerAscii(line);
              exists i, j :: 0 <= i < j < |l| && l[i] == '/' && l[j] == ' ' && IsSpelling(RewriteOO(romaji), l[i + 1..j])
  {
    var l := LowerAscii(line);
    forall i, j | 0 <= i < j < |l| && l[i] == '/' && l[j] == ' '
      ensures Matches(FindPattern(romaji), l[i + 1..j]) <==> IsSpelling(RewriteOO(romaji), l[i + 1..j])
    {
      MatchesExpandIff(RewriteOO(romaji), l[i + 1..j]);
    }
  }

  /** The characters `findKanji` takes as text: no regular-expression syntax
      and no line terminator. */
  predicate PlainKanji(kanji: string)
  {
    forall k :: 0 <= k < |kanji| ==> !IsRegexMeta(kanji[k]) && !IsLineTerminator(kanji[k])
  }

  /** `findKanji(kanji)`: no result for the empty query; otherwise the
      largest group, by spelling, of the records on lines starting with the
      query. */
  method FindKanji(lines: seq<string>, kanji: string) returns (r: Option<Entries>)
    requires PlainKanji(kanji)
    ensures kanji == [] ==> r.None?
    ensures kanji != [] ==> r == LargestGroup(lines, ByPrefix(kanji), KanjiField, ParseLine)
    ensures kanji != [] ==> r == SearchAsWritten(lines, ByPrefix(kanji), KanjiField, ParseLine)
  {
    if kanji == [] {
      return None;
    }
    r := SearchLargestGroup(lines, ByPrefix(kanji), KanjiField, ParseLine);
    FindKanjiAsWritten(lines, ByPrefix(kanji));
  }

  /** A kanji search never meets the empty key: every parsed line has a
      non-empty kanji field, so `findKanji` as written is the intended
      search. */
  lemma FindKanjiAsWritten(lines: seq<string>, q: Query)
    ensures SearchAsWritten(lines, q, KanjiField, ParseLine) == LargestGroup(lines, q, KanjiField, ParseLine)
  {
    var recs := MatchedRecords(lines, q, ParseLine);
    SearchAsWrittenDiffers(lines, q, KanjiField, ParseLine);
    if Winner(recs, KanjiField).Some? {
      WinnerGroupShared(recs, KanjiField);
      var x := Group(recs, KanjiField, Winner(recs, KanjiField).value)[0];
      assert x in recs;
      MatchedRecordsSpec(lines, q, ParseLine);
      var k :| 0 <= k < |lines| && LineMatches(lines[k], q) && ParseLine(lines[k]) == Some(x);
      ParseLineHead(lines[k]);
    }
  }

  /** The records of the winning group all share its key. */
  lemma WinnerGroupShared(recs: seq<Record>, f: Field)
    requires Winner(recs, f).Some?
    ensures var g := Group(recs, f, Winner(recs, f).value);
            g != [] && forall i :: 0 <= i < |g| ==> FieldOf(g[i], f) == Winner(recs, f).value
  {
    var g := Group(recs, f, Winner(recs, f).value);
    forall i | 0 <= i < |g| ensures FieldOf(g[i], f) == Winner(recs, f).value {
      assert g[i] in g;
    }
  }

  /** The romaji a `find` result displays is its shared key, capitalised. */
  lemma FindRomajiDisplay(lines: seq<string>, q: Query, parse: string -> Option<Record>)
    requires LargestGroup(lines, q, RomajiField, parse).Some?
    ensures var e := LargestGroup(lines, q, RomajiField, parse).value;
            e.Romaji() == One(Capitalize(e.data[0].romaji))
  {
    var recs := MatchedRecords(lines, q, parse);
    WinnerGroupShared(recs, RomajiField);
    var g := Group(recs, RomajiField, Winner(recs, RomajiField).value);
    RomajiOfSharedGroup(g, g[0].romaji);
  }

  /** The spelling a `findKanji` result displays is its shared key. */
  lemma FindKanjiDisplay(lines: seq<string>, q: Query, parse: string -> Option<Record>)
    requires LargestGroup(lines, q, KanjiField, parse).Some?
    ensures var e := LargestGroup(lines, q, KanjiField, parse).value;
            e.Kanji() == One(e.data[0].kanji)
  {
    var recs := MatchedRecords(lines, q, parse);
    WinnerGroupShared(recs, KanjiField);
    var g := Group(recs, KanjiField, Winner(recs, KanjiField).value);
    KanjiOfSharedGroup(g, g[0].kanji);
  }

  // ---------------------------------------------------------------------
  // The empty-key case

  /** A line whose first gloss is only a type group, followed by a gloss
      that spells the query. */
  const EmptyRomajiLine: string := "広重 [ひろしげ] / (s)/hiro (g)/"

  /** The line parses to a surname record with empty romaji. */
  lemma EmptyRomajiLineParses()
    ensures ParseLine(EmptyRomajiLine) == Some(Record("", "広重", "ひろしげ", Surname))
  {
    assert EmptyRomajiLine == "広重" + " [" + "ひろしげ" + "] /" + "" + " (" + ['s'] + ")/" + "hiro (g)/";
    ParseRendered("広重", "ひろしげ", "", 's', "hiro (g)/");
  }

  /** `find("hiro")` selects the line, at its second gloss `/hiro `. */
  lemma EmptyRomajiLineSelected()
    ensures LineMatches(EmptyRomajiLine, ByPattern(FindPattern("hiro")))
  {
    var l := LowerAscii(EmptyRomajiLine);
    assert l[15] == '/' && l[20] == ' ' && l[16..20] == "hiro";
    HiroMatchesItself();
  }

  /** The pattern built from `hiro` matches `hiro`. */
  lemma HiroMatchesItself()
    ensures Matches(FindPattern("hiro"), "hiro")
  {
    RewriteOOFixed("hiro");
    SpellingOfSelf("hiro");
    assert LowerAscii("hiro") == "hiro";
    MatchesExpandIff("hiro", "hiro");
  }

  /** A one-line dictionary whose line is selected and parses finds that
      line's record. */
  lemma SingleLineMatched(line: string, q: Query, parse: string -> Option<Record>)
    requires LineMatches(line, q) && parse(line).Some?
    ensures MatchedRecords([line], q, parse) == [parse(line).value]
  {
    assert [line][..0] == [];
  }

  /** When a single record is found, its key wins and its group is the
      result; the as-written search drops it exactly when its key is empty. */
  lemma SingleRecordSearch(lines: seq<string>, q: Query, f: Field, parse: string -> Option<Record>, rec: Record)
    requires MatchedRecords(lines, q, parse) == [rec]
    ensures LargestGroup(lines, q, f, parse) == Some(Entries([rec], f))
    ensures SearchAsWritten(lines, q, f, parse) == if FieldOf(rec, f) == [] then None else Some(Entries([rec], f))
  {
    SingleRecordGroups(rec, f);
  }

  lemma SingleRecordGroups(rec: Record, f: Field)
    ensures Keys([rec], f) == [FieldOf(rec, f)]
    ensures Group([rec], f, FieldOf(rec, f)) == [rec]
  {
    assert [rec][..0] == [];
  }

  /** On this one-line dictionary, `find("hiro")` as written gives no result,
      though the line is selected and parses (to a record with empty
      romaji); the intended search returns that record. */
  lemma EmptyRomajiCounterexample()
    ensures var q := ByPattern(FindPattern("hiro"));
            && MatchedRecords([EmptyRomajiLine], q, ParseLine) == [Record("", "広重", "ひろしげ", Surname)]
            && SearchAsWritten([EmptyRomajiLine], q, RomajiField, ParseLine) == None
            && LargestGroup([EmptyRomajiLine], q, RomajiField, ParseLine)
               == Some(Entries([Record("", "広重", "ひろしげ", Surname)], RomajiField))
  {
    var q := ByPattern(FindPattern("hiro"));
    EmptyRomajiLineParses();
    EmptyRomajiLineSelected();
    SingleLineMatched(EmptyRomajiLine, q, ParseLine);
    SingleRecordSearch([EmptyRomajiLine], q, RomajiField, ParseLine, Record("", "広重", "ひろしげ", Surname));
  }
}
