/** The result of a search: the records of the most common key value, and
    the accessors that summarise them (`Entries` with `type`, `kana`,
    `romaji`, `kanji` and `entries`, and the helpers `capitalize` and
    `aggregate`). */
module Accessors {
  import opened Base
  import opened Records
  import opened Election

  /** `capitalize`: the first character upper-cased, the rest kept; the empty
      name stays empty. */
  function Capitalize(name: string): (r: string)
    ensures |r| == |name|
    ensures name != [] ==> r[1..] == name[1..] && !IsAsciiLower(r[0])
                           && ToLowerAscii(r[0]) == ToLowerAscii(name[0])
  {
    if name == [] then [] else [ToUpperAscii(name[0])] + name[1..]
  }

  /** Capitalising a capitalised name changes nothing. */
  lemma CapitalizeIdempotent(name: string)
    ensures Capitalize(Capitalize(name)) == Capitalize(name)
  {
  }

  /** `aggregate`'s test: every entry qualifies when the type is unknown,
      otherwise those of that type and those of unknown type. */
  predicate Compatible(e: Record, t: Category)
  {
    t == Unknown || e.category == t || e.category == Unknown
  }

  /** `aggregate`: the chosen field of each qualifying entry, in order,
      leaving out empty values. */
  function Aggregate(data: seq<Record>, t: Category, f: Field): (r: seq<string>)
    ensures |r| <= |data|
  {
    if data == [] then []
    else
      var e := data[0];
      var tail := Aggregate(data[1..], t, f);
      if Compatible(e, t) && FieldOf(e, f) != [] then [FieldOf(e, f)] + tail else tail
  }

  /** Aggregate lists a value exactly when it is the non-empty value of some
      qualifying entry. */
  lemma {:induction false} AggregateMembers(data: seq<Record>, t: Category, f: Field)
    ensures forall x :: x in Aggregate(data, t, f) ==>
              x != [] && exists e :: e in data && Compatible(e, t) && FieldOf(e, f) == x
    ensures forall e :: e in data && Compatible(e, t) && FieldOf(e, f) != [] ==> FieldOf(e, f) in Aggregate(data, t, f)
  {
    if data != [] {
      AggregateMembers(data[1..], t, f);
      assert forall e' :: e' in data[1..] ==> e' in data;
      assert forall e' :: e' in data ==> e' == data[0] || e' in data[1..];
    }
  }

  /** Aggregating two runs of entries one after the other is aggregating
      each and joining the results. */
  lemma {:induction false} AggregateConcat(a: seq<Record>, b: seq<Record>, t: Category, f: Field)
    ensures Aggregate(a + b, t, f) == Aggregate(a, t, f) + Aggregate(b, t, f)
    decreases |a|
  {
    if a == [] {
      assert a + b == b;
    } else {
      assert (a + b)[0] == a[0] && (a + b)[1..] == a[1..] + b;
      AggregateConcat(a[1..], b, t, f);
      var x := [FieldOf(a[0], f)];
      assert x + (Aggregate(a[1..], t, f) + Aggregate(b, t, f)) == (x + Aggregate(a[1..], t, f)) + Aggregate(b, t, f);
    }
  }

  /** The values of one field of every entry. */
  function FieldValues(data: seq<Record>, f: Field): (r: seq<string>)
    ensures |r| == |data| && forall i :: 0 <= i < |data| ==> r[i] == FieldOf(data[i], f)
  {
    seq(|data|, i requires 0 <= i < |data| => FieldOf(data[i], f))
  }

  /** With the type unknown and no empty values, aggregate lists every
      entry's value. */
  lemma {:induction false} AggregateUnknownKeepsAll(data: seq<Record>, f: Field)
    requires forall i :: 0 <= i < |data| ==> FieldOf(data[i], f) != []
    ensures Aggregate(data, Unknown, f) == FieldValues(data, f)
    decreases |data|
  {
    if data != [] {
      assert forall i :: 0 <= i < |data[1..]| ==> data[1..][i] == data[i + 1];
      AggregateUnknownKeepsAll(data[1..], f);
      FieldValuesCons(data, f);
    }
  }

  lemma FieldValuesCons(data: seq<Record>, f: Field)
    requires data != []
    ensures FieldValues(data, f) == [FieldOf(data[0], f)] + FieldValues(data[1..], f)
  {
  }

  /** The type of every entry. */
  function Categories(data: seq<Record>): (r: seq<Category>)
    ensures |r| == |data| && forall i :: 0 <= i < |data| ==> r[i] == data[i].category
  {
    seq(|data|, i requires 0 <= i < |data| => data[i].category)
  }

  /** What an accessor returns: one string (the most common value) or a list
      of strings (the aggregated values). */
  datatype Answer = One(value: string) | Many(values: seq<string>)

  /** `new Entries(data, key)`: the records of one group and the field they
      were grouped by. `entries()` is the `data` field itself. */
  datatype Entries = Entries(data: seq<Record>, key: Field)
  {
    /** `type()`: the type held by more than half of the entries, or
        "unknown". */
    function Type(): (r: Category)
      ensures Elected(Categories(data), Unknown, r)
    {
      Elect(Categories(data), Unknown)
    }

    /** `kana()`: the majority reading when grouped by romaji, otherwise the
        readings of the entries compatible with the type. */
    function Kana(): (r: Answer)
      ensures key == RomajiField ==> r.One? && Elected(FieldValues(data, KanaField), "", r.value)
      ensures key != RomajiField ==> r.Many? && r.values == Aggregate(data, Type(), KanaField)
    {
      if key == RomajiField then One(Elect(FieldValues(data, KanaField), ""))
      else Many(Aggregate(data, Type(), KanaField))
    }

    /** `romaji()`: the capitalised majority romaji when grouped by romaji,
        otherwise the romaji of the entries compatible with the type. */
    function Romaji(): (r: Answer)
      ensures key == RomajiField ==>
                r.One? && exists x :: Elected(FieldValues(data, RomajiField), "", x) && r.value == Capitalize(x)
      ensures key != RomajiField ==> r.Many? && r.values == Aggregate(data, Type(), RomajiField)
    {
      if key == RomajiField then One(Capitalize(Elect(FieldValues(data, RomajiField), "")))
      else Many(Aggregate(data, Type(), RomajiField))
    }

    /** `kanji()`: the majority spelling when grouped by kanji, otherwise the
        spellings of the entries compatible with the type. */
    function Kanji(): (r: Answer)
      ensures key == KanjiField ==> r.One? && Elected(FieldValues(data, KanjiField), "", r.value)
      ensures key != KanjiField ==> r.Many? && r.values == Aggregate(data, Type(), KanjiField)
    {
      if key == KanjiField then One(Elect(FieldValues(data, KanjiField), ""))
      else Many(Aggregate(data, Type(), KanjiField))
    }
  }

  /** A group whose entries all have romaji `x` answers `romaji()` with `x`
      capitalised. */
  lemma RomajiOfSharedGroup(data: seq<Record>, x: string)
    requires data != []
    requires forall i :: 0 <= i < |data| ==> data[i].romaji == x
    ensures Entries(data, RomajiField).Romaji() == One(Capitalize(x))
  {
    ElectUnanimous(FieldValues(data, RomajiField), x, "");
  }

  /** A group whose entries all have spelling `x` answers `kanji()` with `x`. */
  lemma KanjiOfSharedGroup(data: seq<Record>, x: string)
    requires data != []
    requires forall i :: 0 <= i < |data| ==> data[i].kanji == x
    ensures Entries(data, KanjiField).Kanji() == One(x)
  {
    ElectUnanimous(FieldValues(data, KanjiField), x, "");
  }
}
