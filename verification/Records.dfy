/** The record a dictionary line yields, and the fields a search or an
    accessor can select from it. */
module Records {

  /** The expanded form of a type code: "surname", "given" or "unknown". */
  datatype Category = Surname | Given | Unknown

  /** One parsed line: `{romaji, kanji, kana, type}`. */
  datatype Record = Record(romaji: string, kanji: string, kana: string, category: Category)

  /** The string-valued keys of a record that are looked up by name. */
  datatype Field = RomajiField | KanjiField | KanaField

  function FieldOf(r: Record, f: Field): string
  {
    match f
    case RomajiField => r.romaji
    case KanjiField => r.kanji
    case KanaField => r.kana
  }
}
