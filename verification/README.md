# enamdict.js, modelled in Dafny

A model of the lookup engine of `enamdict.js`. The module looks Japanese
names up in ENAMDICT, the Japanese names dictionary. Each dictionary line
reads `KANJI [KANA] /Romaji (type)/.../`. The model covers these parts:

- **Parsing a line.** The line pattern `^([^ ]+) \[([^\]]+)\] \/(.*?)\//`
  splits a line into its spelling, its reading and its first gloss
  (`Parser.MatchLine`). `parseLine` then does three things:
  - it keeps the line only when the gloss's leftmost type group `(s)`,
    `(g,f)`, … contains a standalone code `s`, `u`, `g`, `f` or `m`; later
    groups are never looked at, so `Abe (p) (s)` is dropped;
  - it maps the code through the table of expanded types: `s` is "surname",
    `g`/`f`/`m` are "given", and anything else is "unknown";
  - it cleans the romaji by dropping parenthesised asides and everything
    after a comma.

  These are `Parser.TypeGroup`, `Parser.CodeFrom`, `Parser.CategoryOf`,
  `Parser.CleanRomaji`, `Parser.ParseGloss` and `Parser.ParseLine`.
- **The pattern `find` builds.** The replacement chain turns the query into a
  regular expression. `oo` becomes `ou`, `a`/`e`/`i`/`u` may be doubled, `o`
  may be followed by `o` or `u`, and `n` may be followed by an apostrophe. The
  model represents the result as a sequence of tokens and proves which
  spellings the pattern accepts (`Pattern` module).
  - The search is case-insensitive, so the model lower-cases the line (ASCII
    only).
  - This is exact for the ASCII queries the model admits. A JavaScript
    regular expression without the `u` flag never folds a non-ASCII
    character onto an ASCII one.
- **`findPopular`.** It returns the value held by more than half of the
  entries, or a default (`Election` module). The module has:
  - a specification, `Elected`;
  - a function that meets it, `Elect`;
  - the counting loop, written as a method (`FindPopular`).
- **`Entries` and its accessors.** These are `type()`, `kana()`, `romaji()`,
  `kanji()`, `capitalize` and `aggregate` (`Accessors` module).
  - `entries()` returns the `data` field of the `Entries` value itself.
- **`searchData`, `find` and `findKanji`** (`Search` module).
  - The dictionary is passed in as its lines.
  - A query selects lines, and the selected lines that parse are grouped by
    romaji (`find`) or by spelling (`findKanji`).
  - The search returns the largest group. A tie goes to the group whose key
    was added first.
  - The grouping loop (`CollectGroups`) and the pick of the largest group
    (`PickLargest`) are methods, proved against the functions `Keys`,
    `Group` and `FirstLargest`.

## Model

| member | source | states |
|---|---|---|
| Parser.MatchLine | enamdict.js:14 | The line pattern, as an option of its three captures; what it accepts and yields is stated by MatchLineSound and MatchLineRendered. |
| Parser.MatchLineSound | enamdict.js:14 | When the line pattern matches, each capture meets the pattern's demands. The spelling is non-empty and has no space. The reading is non-empty and has no `]`. The gloss has no `/`. `KANJI [KANA] /GLOSS/` is exactly how the line begins. |
| Parser.MatchLineRendered | enamdict.js:14 | This is the converse of MatchLineSound. Every line that begins with a well-formed `KANJI [KANA] /GLOSS/` matches, with exactly those three captures. |
| Parser.MatchLineHead | enamdict.js:14 | A match's spelling and reading are non-empty. They are free of the separators. `KANJI [KANA] /` starts the line. |
| Parser.GroupSpanFrom | enamdict.js:17 | Gives the leftmost `(letters)` type group at or after a position, as the positions of its parentheses. No group starts earlier. When nothing is found, no group exists from that position on. |
| Parser.TypeGroup | enamdict.js:211-213 | There is no group exactly when the gloss has no type group. Otherwise the result is the letters of the leftmost one. |
| Parser.CodeFrom | enamdict.js:216-222 | Gives the leftmost code `s`/`u`/`g`/`f`/`m` that stands between word boundaries. No such code comes before it. When nothing is found, there is none. |
| Parser.CleanRomaji | enamdict.js:226 | The cleaned romaji has no comma and no `(` followed later by `)`. It adds no character the input lacked and is no longer than the input. What it keeps is pinned down by CleanRomajiComma (including a comma after an unclosed `(`), CleanRomajiAside and CleanRomajiFixed. |
| Parser.CleanRomajiComma | enamdict.js:226 | Text before the first comma that holds no comma and no closed aside is kept, and the comma and everything after it are dropped. That text may hold an unclosed `(` as long as no `)` follows the comma either; a later `)` would close an aside that swallows the comma. |
| Parser.UnclosedCommaExample | enamdict.js:226 | `Abe (x, y` is cleaned to `Abe (x`. |
| Parser.CleanRomajiAside | enamdict.js:226 | An aside `(…)` with the whitespace before it is dropped. The text before it, free of `(` and `,` and not ending in whitespace, is kept, and the clean-up goes on after the `)`. |
| Parser.CleanRomajiPrefix | enamdict.js:226 | Text free of `(` and `,` that does not end in whitespace is kept in front of the clean-up of whatever follows it. |
| Parser.AsideAtStart | enamdict.js:226 | Whitespace and an aside at the start are dropped. The rest is cleaned as if they were not there. |
| Parser.CommaExample | enamdict.js:226 | `Abe, Abe` is cleaned to `Abe`. |
| Parser.AsideExample | enamdict.js:226 | `Abe (p)` is cleaned to `Abe`. |
| Parser.CleanRomajiFixed | enamdict.js:226 | A name with no comma and no closed aside is left unchanged. |
| Parser.CleanRomajiIdempotent | enamdict.js:226 | Cleaning twice is the same as cleaning once. |
| Parser.CleanNameWithCodes | enamdict.js:226 | `Name (codes)` is cleaned to `Name`. |
| Parser.CategoryOf | enamdict.js:24-29 | The table of expanded types: `s` gives the surname category, `g`, `f` and `m` the given category, and any other code the unknown one. ParseGloss and ParseRendered state it for the parsed record. |
| Parser.ParseLine | enamdict.js:209-235 | The parser the search applies to each selected line: the line pattern, then parseLine on its captures. ParseLineGloss, ParseLineHead and ParseRendered state what it yields. |
| Parser.ParseGloss | enamdict.js:209-235 | Both directions: there is a record exactly when the gloss has a leftmost type group and that group holds a standalone code. A record takes its category from the first standalone code. It copies the spelling and the reading, and its romaji is the cleaned gloss. |
| Parser.ParseLineGloss | enamdict.js:184-185 | A line yields a record only when the line pattern matches. The record is then what parseLine makes of the three captures. Its romaji has neither a comma nor a closed aside. |
| Parser.ParseLineHead | enamdict.js:229-234 | A parsed record's spelling and reading are non-empty. `KANJI [KANA] /` starts the line they came from. |
| Parser.ParseRendered | enamdict.js:209-235 | Round trip: the line `KANJI [KANA] /Name (c)/...` parses to exactly the record (Name, KANJI, KANA, category of c). |
| Parser.ParseNameWithCode | enamdict.js:211-234 | The gloss `Name (c)` gives the record of Name with the category of c. |
| Pattern.RewriteOO | enamdict.js:72 | Same length as the input. No `oo` remains. The first character is kept. RewriteOOAt gives every other character. |
| Pattern.RewriteOOAt | enamdict.js:72 | Character by character, as the left-to-right global replacement does it: a character becomes `u` exactly when it is an `o`, the input character before it is an `o`, and that one was itself kept as `o`. So `ooo` becomes `ouo`. |
| Pattern.RewriteOOChange | enamdict.js:72 | The only change the rewrite makes is an `o` that follows an `o` becoming `u`. |
| Pattern.RewriteOOFixed | enamdict.js:72 | A query without `oo` is left alone. |
| Pattern.RewriteOOIdempotent | enamdict.js:72 | Rewriting twice is the same as rewriting once. |
| Pattern.TokenFor | enamdict.js:75-78 | The token each query character becomes: a vowel `a`/`e`/`i`/`u` optionally doubled, `o` optionally followed by `o` or `u`, lower-case `n` optionally followed by an apostrophe (the `n` replacement is case-sensitive), and any other character itself, all lower-cased. MatchesExpandIff states what the tokens accept. |
| Pattern.FindPattern | enamdict.js:70-78 | The whole replacement chain: the `oo` rewrite, then one token per character. MatchesExpandIff and FindLineMatchesIff state what it accepts. |
| Pattern.Matches | enamdict.js:70-78 | A token sequence matching a text, each token taking one of its variants. MatchesExpandIff gives both directions against the spelling relation. |
| Pattern.Expand | enamdict.js:75-78 | The pattern has one token per query character. |
| Pattern.MatchesExpandIff | enamdict.js:75-78 | Both directions: the built pattern matches a lower-cased text exactly when the text spells the query character by character, each character written as one of its variants (`a`/`aa`, `o`/`oo`/`ou`, `n`/`n'`). |
| Pattern.SpellingOfSelf | enamdict.js:75-78 | Every query, lower-cased, is a spelling of itself. |
| Pattern.LongVowels | enamdict.js:74-76 | For the pattern built from an already rewritten query, a single vowel also accepts the vowel doubled, and `o` also accepts `ou`. |
| Pattern.FindLongVowels | enamdict.js:70-78 | The same for `find` itself: for a query without `oo`, which the `oo` rewrite leaves alone, a single vowel also finds the vowel doubled and `o` also finds `ou`. |
| Pattern.RewrittenQueryMissesOO | enamdict.js:72 | A query holding `oo` is searched after its rewrite: `too` becomes `tou`, and the spelling `too` is not among its spellings. |
| Election.Elect | enamdict.js:155-175 | The result is the value held by more than half of the entries when there is one, and the default otherwise. |
| Election.MajorityUnique | enamdict.js:170 | At most one value can be held by more than half of the entries. |
| Election.ElectedUnique | enamdict.js:166-172 | The specification pins the result down, so the order of the keys cannot change the answer. |
| Election.ElectUnanimous | enamdict.js:155-175 | When every entry holds the same value, that value is returned. |
| Election.ElectOccurs | enamdict.js:155-175 | A result other than the default is one of the entries' values. |
| Election.ElectTie | enamdict.js:170-174 | An even split between two values, each held by exactly half of the entries, returns the default. |
| Election.ElectTieTwoTwo | enamdict.js:170-174 | The 2–2 split `[a, a, b, b]` returns the default. |
| Election.FindPopular | enamdict.js:155-175 | The counting loop and the pick of the top key return the specified majority-or-default. |
| Accessors.Capitalize | enamdict.js:136-141 | The length is kept, the empty name stays empty, and the rest of the name is unchanged. The first character is no longer a small letter and is the same letter up to case. |
| Accessors.CapitalizeIdempotent | enamdict.js:136-141 | Capitalising twice is the same as capitalising once. |
| Accessors.Aggregate | enamdict.js:143-153 | The map and filter of `aggregate`: no more values than entries. AggregateMembers, AggregateConcat and AggregateUnknownKeepsAll state which values and in what order. |
| Accessors.AggregateMembers | enamdict.js:143-153 | A value is listed exactly when it is the non-empty value of an entry whose type is compatible: the type is unknown, the same, or the entry's own type is unknown. |
| Accessors.AggregateConcat | enamdict.js:143-153 | Aggregating two runs of entries one after the other is the same as aggregating each and joining the results, so order is kept. |
| Accessors.AggregateUnknownKeepsAll | enamdict.js:143-153 | With the type unknown and no empty values, every entry's value is listed in order. |
| Accessors.Entries.Type | enamdict.js:103-105 | Gives the type held by more than half of the entries, or "unknown". |
| Accessors.Entries.Kana | enamdict.js:107-113 | Grouped by romaji, gives the majority reading or "". Otherwise gives the readings of the entries compatible with the type. |
| Accessors.Entries.Romaji | enamdict.js:115-121 | Grouped by romaji, gives the capitalised majority romaji. Otherwise gives the romaji of the compatible entries. |
| Accessors.Entries.Kanji | enamdict.js:123-129 | Grouped by kanji, gives the majority spelling or "". Otherwise gives the spellings of the compatible entries. |
| Accessors.RomajiOfSharedGroup | enamdict.js:115-118 | A group whose entries all share romaji `x` answers `romaji()` with `x` capitalised. |
| Accessors.KanjiOfSharedGroup | enamdict.js:123-125 | A group whose entries all share spelling `x` answers `kanji()` with `x`. |
| Search.LineMatches | enamdict.js:81 | Whether a query selects a line: the `find` pattern between a `/` and a later space, or the `findKanji` prefix. FindLineMatchesIff states the `find` case in both directions. |
| Search.MatchedRecords | enamdict.js:182-187 | The records of the selected lines that parse, in line order; no more records than lines. MatchedRecordsSpec states both directions. |
| Search.MatchedRecordsSpec | enamdict.js:182-187 | Every record found comes from a line that is selected and parses. Every such line contributes its record. |
| Search.Group | enamdict.js:190-194 | A group holds exactly the found records whose field equals the key. |
| Search.Keys | enamdict.js:190-192 | The keys are distinct. A value is a key exactly when its group is non-empty. |
| Search.FirstLargest | enamdict.js:200-202 | There is no pick exactly when there are no keys. |
| Search.FirstLargestSpec | enamdict.js:200-202 | The picked key is one of the keys, and no key has a larger group. |
| Search.FirstLargestIsFirst | enamdict.js:200-202 | Among distinct keys, every key before the picked one has a strictly smaller group, as the stable sort leaves it. |
| Search.LargestGroupSpec | enamdict.js:177-207 | There is a result exactly when some selected line parses. The result is one key's whole group, grouped by the searched field. That group is as large as any other and larger than every group whose key came first. |
| Search.SearchAsWritten | enamdict.js:204-206 | `searchData`'s result as written, with the empty winning key read as false. SearchAsWrittenDiffers relates it to LargestGroup. |
| Search.LargestGroup | enamdict.js:177-207 | The intended result: the winning group whenever some record was found. LargestGroupSpec states it. |
| Search.SearchAsWrittenDiffers | enamdict.js:204-206 | The as-written result differs from the intended one exactly when the winning key is the empty string. |
| Search.AddRecord | enamdict.js:190-194 | After one push, the key list and the groups are those of the records seen so far plus the new one. |
| Search.CollectGroups | enamdict.js:179-197 | The exec loop leaves the keys in order of first appearance, one group per key, each group holding exactly that key's records. |
| Search.PickLargest | enamdict.js:200-202 | Gives the first key with a largest group, taken from the groups the loop built. |
| Search.SearchData | enamdict.js:177-207 | Gives `searchData`'s result as written, including null for the empty key. |
| Search.SearchLargestGroup | enamdict.js:177-207 | Gives the intended result: the largest group whenever one exists. |
| Search.Find | enamdict.js:64-85 | An empty query gives no result. Otherwise the result is the largest romaji group of the lines where the text between some `/` and a later space spells the query after its `oo` rewrite. |
| Search.FindLineMatchesIff | enamdict.js:70-81 | Both directions: `find` selects a line exactly when the text between some `/` and a later space, lower-cased, spells the query after its `oo` rewrite. |
| Search.FindKanji | enamdict.js:87-94 | An empty query gives no result. Otherwise the result is the largest spelling group of the lines that start with the query, and it is also the as-written result. |
| Search.FindKanjiAsWritten | enamdict.js:204-206 | A search by spelling never meets the empty key, because every parsed line has a non-empty spelling. So `findKanji` as written gives exactly the intended result. |
| Search.WinnerGroupShared | enamdict.js:188-194 | Every record of the winning group carries the winning key. |
| Search.FindRomajiDisplay | enamdict.js:115-118 | The romaji a `find` result shows is its shared key, capitalised. |
| Search.FindKanjiDisplay | enamdict.js:123-125 | The spelling a `findKanji` result shows is its shared key. |
| Search.EmptyRomajiLineParses | enamdict.js:209-235 | The line `広重 [ひろしげ] / (s)/hiro (g)/` parses to a surname record with empty romaji. |
| Search.EmptyRomajiLineSelected | enamdict.js:81 | `find("hiro")` selects that line at its second gloss. |
| Search.SingleRecordSearch | enamdict.js:204-206 | When one record is found, the intended search returns its group. The as-written search drops the group exactly when its key is empty. |
| Search.EmptyRomajiCounterexample | enamdict.js:204-206 | On that one-line dictionary, `find("hiro")` as written gives no result, while the intended search returns the record. |

## Left out

- Loading the dictionary (`init`, enamdict.js:35-62) is left out. This covers reading the gzip file or stream, decompressing it, and calling back. The model takes the dictionary text as a parameter, as its lines.
- Splitting the text at line terminators is left out. The `m`-flag scan over the whole text is modelled line by line: a matching line is taken whole, as `match[0]` is.
- download-enamdict.js, test.js and test-perf.js are not part of this model.
- Some descriptions of the library mention features that enamdict.js does not have: an offset index that resumes a scan at a key, a composer of surname and given name (`findByName`), and lower-cased keys. The model follows the code, so none of them appear here.
- Find: queries are limited to ASCII text with no regular-expression metacharacter and no line terminator. The general regular-expression engine, which such characters would bring in, is not modelled.
- FindKanji: queries are limited to text with no regular-expression metacharacter and no line terminator, for the same reason.
- Find: it uses the corrected search described under Findings. The as-written behaviour is `Search.SearchData`.
- FindKanji: it is proved equal to both the corrected and the as-written search, since the empty key cannot arise there.
- Capitalize: only ASCII letters are upper-cased. JavaScript's full Unicode `toUpperCase` is not modelled. Neither are its one-to-many mappings, such as `ß` to `SS`, or its work on UTF-16 code units.
- Search.Keys: the model uses insertion order for key order. JavaScript lists integer-like property names first, in numeric order; that is not modelled.
- Search.Group: `nameLookup` is a plain JavaScript object, so a key that names an inherited property (`toString`, `valueOf`, `hasOwnProperty`, `__proto__`, `constructor`, …) finds a truthy value there. `nameLookup[dataKey].push` (enamdict.js:193) then throws a TypeError and the whole `find` or `findKanji` throws. The model treats such a key like any other and returns its group.
- Search.PickLargest: the sort of the keys by group size is replaced by a scan that keeps the first strict maximum. This equals the first element after a stable sort, which ECMAScript requires since its 2019 edition. Older engines could break a tie between equal groups differently.
- Election.FindPopular: the sort of the counted values is replaced by a scan for the most frequent one. Only the top value is used, and a majority is unique, so the answer is the same.
- Election.FindPopular: `values` is a plain JavaScript object too (enamdict.js:161). An entry whose value is `__proto__` is never counted, since assigning a string to `__proto__` is ignored. A value such as `constructor` or `toString` starts from the inherited function, so its count becomes a string and the majority test fails. The model counts such values like any other.
- Election.FindPopular: the `key in entry` test always holds, because every parsed record has all four keys. So every entry is counted.
- Search.MatchedRecords: the search functions take the line parser as a parameter, and `Find`/`FindKanji` pass `Parser.ParseLine`. This keeps the search proofs independent of the parser's details.
- Parser.CleanRomaji: the rule that `.` does not cross a line terminator is not modelled. A name lies within one line, so it holds none.

## Findings

| source | as written | input that shows it | evidently intended | confidence | as-written member | corrected member |
|---|---|---|---|---|---|---|
| enamdict.js:204-206 | `popularName ? new Entries(...) : null` treats the winning key `""` as false and returns null | The dictionary line `広重 [ひろしげ] / (s)/hiro (g)/` with `find("hiro")`. The line is selected at `/hiro `. It parses to a surname record whose romaji cleans to `""`, which is the only and so the largest group. | Return the largest group whenever any record was found (test `popularName !== undefined`) | not executed | Search.SearchData (with Search.EmptyRomajiCounterexample) | Search.SearchLargestGroup |
