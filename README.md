# sisvoto-helper search page, modelled in Dafny

`src/App.tsx` is a one-page React app. It lets a member of a youth society (UMP) find their
voting code. A CSV export of members is loaded and repaired, and each member gets a
normalized search key. The member then types a name, searches, and picks a record
from the result. Picking a record shows the voting link with that record's code.

This project models the page's core:

- **`SearchKey` (`normalize.dfy`)**: the search key `normalize`. It lower-cases,
  decomposes canonically, removes diacritics, expands `ß` to `ss`, masks symbols,
  collapses whitespace and trims.
  - Lower-casing, decomposition and the Diacritic property are Unicode tables. They
    are a `Tables` parameter of per-character functions. `ValidTables` states all that
    is assumed of them: they leave `[a-z0-9 ]` alone and keep whitespace whitespace.
- **`Text` (`text.dfy`)**: what the code uses from JavaScript strings: the whitespace
  class of `trim` and `\s`, `trim`, `includes`, and `String.prototype.replace` with
  a string pattern. The replacement is inserted literally: the `$&`, `$$`, `` $` `` and
  `$'` patterns are not expanded. This is exact for the replacements the page uses,
  which contain no `$` (src/App.tsx:61-63).
- **`Utf8` (`utf8.dfy`)**: UTF-8 decoding and encoding as RFC 3629, sections 3 and 4,
  define them.
- **`Repair` (`repair.dfy`)**: `fixEncoding`, which is `decodeURIComponent(escape(s))`.
  `escape` never fails. It writes each code unit up to 0xFF as one byte: the character
  itself for `A-Z a-z 0-9 @*_+-./`, `%XX` otherwise. It writes any larger code unit as
  `%uXXXX`. `decodeURIComponent` rejects `%uXXXX`, and it decodes the bytes
  as UTF-8, failing when they are not well formed. When it fails, the input is returned
  unchanged. The model reads every character as one byte and decodes the bytes as UTF-8.
- **`Load` (`load.dfy`)**: turning parsed rows into records, a map then a filter, and
  the header rename.
- **`Search` (`search.dfy`)**:
  - the matcher;
  - the voting link;
  - the page state as a class `App`, with `data`, `nome`, `matches`, `selected` and
    `searched`. Its methods are the event handlers, and its predicates are the render
    guards.
- **`Latin1` (`latin1.dfy`)**: a concrete instance of the tables for Basic Latin and
  Latin-1. It satisfies `ValidTables`, and it folds "José" and "JOSÉ" to "jose".
- **`Scenario` (`scenario.dfy`)**: a worked session over four sample rows. It
  covers loading, an ambiguous search and a choice, a single match and its confirmation, a miss and a blank search.
- **`Seqs` and `Wrappers`**: generic sequence functions (map, filter, flat-map) and
  `Option`.

## Model

| member | source | states |
|---|---|---|
| SearchKey.Normalize | src/App.tsx:17-27 | the key uses only `a-z`, `0-9` and space, has no leading, trailing or doubled space; an absent or empty input gives `""` |
| SearchKey.LowerCase | src/App.tsx:20 | no contract of its own: each character is replaced by its lower-case table entry. TableStepsFixKeyText states that it leaves text over `[a-z0-9 ]` unchanged. It is `FlatMap` of the table, and Seqs.FlatMapAppend states that it works character by character |
| SearchKey.Decompose | src/App.tsx:21 | no contract of its own: each character is replaced by its canonical decomposition. TableStepsFixKeyText states that it leaves text over `[a-z0-9 ]` unchanged |
| SearchKey.StripDiacritics | src/App.tsx:22 | no diacritic is left, the result is never longer, and text without a diacritic is unchanged |
| SearchKey.StripDiacriticsAppend | src/App.tsx:22 | removing diacritics works part by part: a concatenation is stripped as its parts are |
| SearchKey.StripDiacriticsChar | src/App.tsx:22 | a diacritic is removed and any other character is kept, so with StripDiacriticsAppend the other characters survive in order |
| SearchKey.ExpandSharpS | src/App.tsx:23 | no `ß` is left, and text without `ß` is unchanged |
| SearchKey.ExpandSharpSAppend | src/App.tsx:23 | expanding `ß` works part by part: a concatenation is expanded as its parts are |
| SearchKey.ExpandSharpSChar | src/App.tsx:23 | `ß` becomes "ss" and any other character is kept |
| SearchKey.MaskSymbols | src/App.tsx:24 | same length as the input; a character of `[a-z0-9 ]` stays where it is and every other character becomes a space |
| SearchKey.MaskSymbolsIdempotent | src/App.tsx:24 | masking a masked string changes nothing |
| SearchKey.FoldCharacters | src/App.tsx:20-24 | the character steps produce text over `[a-z0-9 ]` only |
| SearchKey.TableStepsFixKeyText | src/App.tsx:20-22 | under valid tables, lower-casing and decomposing each leave text over `[a-z0-9 ]` unchanged, and so do the three table steps together |
| SearchKey.SymbolStepsFixKeyText | src/App.tsx:23-24 | expanding `ß` and masking symbols leave text over `[a-z0-9 ]` unchanged |
| SearchKey.CollapseSpaces | src/App.tsx:25 | empty exactly when the input is empty; a leading whitespace character becomes one space; no two spaces in a row |
| SearchKey.CollapseKeepsKeyChars | src/App.tsx:24-25 | collapsing whitespace runs keeps a string over `[a-z0-9 ]` over that alphabet |
| SearchKey.TrimCollapseIsKey | src/App.tsx:24-26 | masking, collapsing and trimming together produce a key, whatever the earlier steps produced |
| SearchKey.FoldFixesKeyText | src/App.tsx:20-24 | the character steps leave a string over `[a-z0-9 ]` unchanged |
| SearchKey.CollapseFixesKeyText | src/App.tsx:25 | on text over `[a-z0-9 ]` with no double space, collapsing changes nothing |
| SearchKey.NormalizeKeyText | src/App.tsx:19-26 | on text over `[a-z0-9 ]` without double spaces, normalize only trims |
| SearchKey.KeysAreFixedPoints | src/App.tsx:19-26 | a string is its own key exactly when it is a key |
| SearchKey.NormalizeIdempotent | src/App.tsx:19-26 | normalizing a key again changes nothing |
| SearchKey.TrimCollapseCommute | src/App.tsx:25-26 | trimming then collapsing equals collapsing then trimming |
| SearchKey.FoldAppend | src/App.tsx:20-24 | the character steps work character by character: folding a concatenation folds each part |
| SearchKey.FoldBlank | src/App.tsx:20-24 | the character steps turn whitespace into whitespace |
| SearchKey.NormalizeIgnoresTrim | src/App.tsx:82 | `normalize(nome.trim())` equals `normalize(nome)`, so the trim before the search is redundant |
| SearchKey.NormalizeBlank | src/App.tsx:24-26 | a string of whitespace only has the empty key |
| Text.IsJsSpace | src/App.tsx:25-26 | no contract of its own: the whitespace class of `trim` and `\s`. TrimStart, TrimEnd and Trim state that exactly characters of this class are removed, and CollapseSpaces that runs of it become one space |
| Text.TrimStart | src/App.tsx:26 | removes the longest whitespace prefix: the removed part is whitespace and the rest does not start with whitespace |
| Text.TrimEnd | src/App.tsx:26 | removes the longest whitespace suffix |
| Text.Trim | src/App.tsx:26 | empty exactly for blank input; otherwise starts and ends with a non-whitespace character |
| Text.TrimSplit | src/App.tsx:26 | the input is the removed whitespace, the trimmed string, and more removed whitespace |
| Text.TrimAbsorbs | src/App.tsx:26 | whitespace added around a string does not change its trim |
| Text.IndexOf | src/App.tsx:89 | returns the first position where the pattern occurs, or -1 when it occurs nowhere |
| Text.Includes | src/App.tsx:89 | true exactly when the pattern occurs as a contiguous piece of the string |
| Text.IncludesSlice | src/App.tsx:89 | every slice of a string is included in it |
| Text.ReplaceFirst | src/App.tsx:61 | replaces the first occurrence only, and returns the input when the pattern does not occur |
| Text.ReplaceFirstSame | src/App.tsx:62-63 | replacing a pattern by itself is the identity, so the `Nome` and `UMP` renames do nothing |
| Utf8.DecodeFirst | src/App.tsx:34 | an ASCII byte decodes to itself in one byte; an empty input, a continuation byte, 0xC0, 0xC1 or a byte above 0xF4 decodes to nothing; a decoded code point uses at least one and at most the available bytes |
| Utf8.EncodeCharDecodeFirst | src/App.tsx:34 | the bytes a decoded code point uses are exactly its encoding |
| Utf8.Decode | src/App.tsx:34 | no bytes decode to the empty string; bytes whose first code point does not decode fail; a decoded string is no longer than its bytes |
| Utf8.DecodeEncode | src/App.tsx:34 | decoding the UTF-8 encoding of a string gives that string back |
| Utf8.EncodeDecode | src/App.tsx:34 | a byte string that decodes is the encoding of its decoding |
| Utf8.DecodeIsInverse | src/App.tsx:34 | decoding `b` gives `s` exactly when `s` encodes to `b` |
| Utf8.EncodeAscii | src/App.tsx:34 | a string below U+0080 (`IsAscii`) encodes to the same bytes, one per character |
| Repair.Latin1Decode | src/App.tsx:34 | one character per byte, with the same code |
| Repair.Latin1Bytes | src/App.tsx:34 | the bytes exist exactly when every character is at most U+00FF, and they read back as the input |
| Repair.Latin1BytesOfDecode | src/App.tsx:34 | reading bytes as Latin-1 and taking the bytes back is the identity |
| Repair.FixEncoding | src/App.tsx:30-38 | absent or empty input gives `""`; otherwise the result is non-empty and is either the input or the text whose mis-read UTF-8 is the input |
| Repair.FixEncodingRepairs | src/App.tsx:33-34 | UTF-8 text that was read as Latin-1 is repaired to the original text |
| Repair.FixEncodingKeepsWide | src/App.tsx:35-36 | a string with any character above U+00FF is returned unchanged |
| Repair.FixEncodingKeepsMalformed | src/App.tsx:35-36 | a string that is no mis-read UTF-8 is returned unchanged |
| Repair.FixEncodingKeepsAscii | src/App.tsx:30-37 | ASCII strings are returned unchanged |
| Repair.FixEncodingExample | src/App.tsx:29 | "CatolÃ©" is repaired to "Catolé" |
| Load.RepairRow | src/App.tsx:68-73 | name, UMP and code are `fixEncoding` of the row's fields; the key is the normalized repaired name; name and code are non-empty exactly when the row's are present and non-empty |
| Load.LoadRecords | src/App.tsx:67-74 | every loaded record has a non-empty name and code and its key is the normalized name |
| Load.KeptRecordsWellFormed | src/App.tsx:74 | of records that carry the key of their name, those that pass the filter are well formed |
| Load.LoadRecordsMembership | src/App.tsx:67-74 | a record is loaded exactly when it is the repair of a kept row |
| Load.LoadRecordsAppend | src/App.tsx:67-74 | loading keeps row order: loading two runs of rows is loading each, concatenated |
| Load.LoadRecordsSingle | src/App.tsx:74 | one row loads to its repaired record when kept and to nothing otherwise |
| Load.TransformHeader | src/App.tsx:59-63 | the first "CÃ³digo" becomes "Código", and a header without it is unchanged |
| Load.TransformHeaderRepairs | src/App.tsx:61 | the garbled code header is renamed to "Código" |
| Load.GarbledHeaderIsLatin1Reading | src/App.tsx:61 | the garbled header is exactly what `fixEncoding` repairs to "Código" |
| Search.FindMatches | src/App.tsx:89 | no more matches than records, and every match's key includes the term |
| Search.FindMatchesLoaded | src/App.tsx:89 | filtering loaded records gives loaded records |
| Search.FindMatchesMembership | src/App.tsx:89 | a record matches exactly when it is in the data and its key includes the term |
| Search.SearchTerm | src/App.tsx:82 | the search term is always a key |
| Search.SearchResult | src/App.tsx:82-90 | an empty term finds nothing; otherwise no more matches than records, and every match's key includes the term |
| Search.SearchResultMembership | src/App.tsx:82-90 | a record is found exactly when the term is non-empty, the record is in the data and its key includes the term |
| Search.SearchResultAppend | src/App.tsx:89 | the result keeps data order: searching two runs of data is searching each, concatenated |
| Search.BlankSearchFindsNothing | src/App.tsx:85-88 | a blank search finds nothing |
| Search.SearchTermIgnoresTrim | src/App.tsx:82 | the search term is the key of the typed name |
| Search.KeySlice | src/App.tsx:89 | every slice of a key is over `[a-z0-9 ]` and has no double space |
| Search.TrimmedSliceOccurs | src/App.tsx:89 | the trimmed form of a slice of a key is included in that key |
| Search.SearchFindsKeySlice | src/App.tsx:82-90 | typing any non-blank piece of a loaded record's key finds that record |
| Search.VotingLink | src/App.tsx:158 | the link is the fixed prefix followed by the code |
| Search.VotingLinkInjective | src/App.tsx:158 | different codes give different links |
| Search.App.ShownLink | src/App.tsx:152-158 | a link is shown exactly when a record is selected, and it is the voting link of that record's code |
| Search.App.ShowsNotFound | src/App.tsx:114 | no contract of its own: HandleSearch states that after a search it holds exactly when nothing matched a non-blank name, and PanelsExclusive that nothing else is shown with it |
| Search.App.ShowsSingleMatch | src/App.tsx:120 | no contract of its own: HandleSearch states that after a search it holds exactly when there is one match |
| Search.App.ShowsMatchList | src/App.tsx:132 | no contract of its own: HandleSearch states that after a search it holds exactly when there are several matches |
| Search.App.PanelsExclusive | src/App.tsx:114-152 | at most one of the not-found message, the single-match prompt, the match list and the link is shown |
| Search.App.constructor | src/App.tsx:41-45 | empty data, name and matches, nothing selected, not searched |
| Search.App.SetData | src/App.tsx:77 | data becomes the loaded records; nothing else changes |
| Search.App.SetNome | src/App.tsx:107 | the typed name is stored; nothing else changes |
| Search.App.HandleSearch | src/App.tsx:81-91 | searched is set, selection cleared, data and name kept, matches become the search result; which of not-found, single match and list is shown follows from the number of matches |
| Search.App.MatchIsLoaded | src/App.tsx:93 | every match is a loaded record with a non-empty code |
| Search.App.HandleSelect | src/App.tsx:93 | only the selection changes; called with one of the matches, as at lines 125 and 143, it shows the voting link of a loaded record's non-empty code |
| Search.App.ConfirmSingleMatch | src/App.tsx:120-128 | from the single-match prompt, the one match is selected and its link is shown |
| Search.App.ChooseMatch | src/App.tsx:132-147 | from the list, the chosen match is selected and its link is shown |
| Latin1.LatinTablesValid | src/App.tsx:20-22 | the Latin-1 tables satisfy `ValidTables` |
| Latin1.NormalizeJose | src/App.tsx:16-27 | "José" and "JOSÉ" both have the key "jose" |
| Scenario.LoadSample | src/App.tsx:67-74 | of four sample rows, the one without a name is dropped and the others load in order |
| Scenario.SearchAna | src/App.tsx:81-91 | "ana" finds both Anas, in data order |
| Scenario.SearchMaria | src/App.tsx:81-91 | "maria" finds Maria alone |
| Scenario.SearchAnaSouza | src/App.tsx:81-91 | "ana souza" finds Ana Souza alone |
| Scenario.SearchPedro | src/App.tsx:81-91 | "Pedro" finds nothing |
| Scenario.Session | src/App.tsx:81-158 | a whole session: an ambiguous search shows the list and the choice shows the right link; a search with one match shows the single-match prompt and confirming it shows that record's link; a miss shows not-found and no link; a blank search does not show not-found |

## Left out

- Fetching the CSV and decoding it with `TextDecoder("iso-8859-1")` (src/App.tsx:48-53) are I/O. The model starts from the parsed rows. The WHATWG decoder behind that label is windows-1252. Bytes 0x81, 0x8D, 0x8F, 0x90 and 0x9D become U+0081, U+008D, U+008F, U+0090 and U+009D, which stay at or below U+00FF. The other bytes from 0x80 to 0x9F become characters above U+00FF, which `fixEncoding` returns unchanged. So UTF-8 text with such a byte is never repaired: "É" (C3 89) arrives as "Ã‰" and stays so. That decoding step is not modelled.
- `Papa.parse` (src/App.tsx:56-64) is a third-party CSV parser whose code is not part of this model. Its result is the `seq<Row>` input, with fields that may be absent. Only `transformHeader` is modelled.
- `console.log` (src/App.tsx:76), the JSX markup, the CSS classes, and the `useEffect`/`useState` scheduling are left out. State updates take effect at once, in handler order.
- Opening the link in a new tab (`target="_blank"`) is browser behaviour and is left out.
- The full Unicode data for `toLowerCase`, NFD and `\p{Diacritic}` is left out. These are a parameter, and only a Basic Latin and Latin-1 instance is given. The per-character shape cannot express context-dependent rules: final sigma in lower-casing, and the canonical reordering of combining marks in NFD.
- JavaScript strings are UTF-16. Here a string is a sequence of Unicode scalar values, so lone surrogates cannot be represented. `fixEncoding` returns every character above U+00FF unchanged, so this does not change its results on the strings the model can represent.
- Repair.FixEncoding: `escape` followed by `decodeURIComponent` is modelled by its effect: Latin-1 bytes, then UTF-8 decoding. The intermediate percent-encoded text is not modelled.
- Search.App.Valid: the page state invariant says every held record was built by the load step and the selection is one of the matches. The validity of the tables is a separate requirement of the lemmas that need it, not part of this invariant.
- Search.App.SetData: a load that finishes after a search replaces `data`, but `matches` is not recomputed. This is the source's behaviour, and the model keeps it.
