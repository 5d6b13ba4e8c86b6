# Sheet Music Maker, modelled in Dafny

Sheet Music Maker turns typed keyboard text into a list of note groups.
Every key character stands for one piano pitch. Three octave tiers are each
split into white keys (natural notes) and black keys (sharps), and these six
sub-tables are merged into one table, `key_to_note`. The parser `parse_input`
works in stages:

- It cuts the text into paragraphs at every blank line (`"\n\n"`). Each
  paragraph that is not blank contributes its groups. Each such paragraph also
  adds an empty group, the paragraph break, unless it is the last paragraph.
- Within a paragraph, `_parse_paragraph` splits the text on runs of `|`. Each
  run becomes one pause note, and its length depends on the run's size and the
  whitespace around it. The text between runs is stripped and handed on.
- `_parse_text_part` splits the text on bracketed segments `[...]`.
  - A bracketed token is played as a chord (`simultaneous`). If it holds a
    space, it is played as a very fast run (`fastest`) instead.
  - An unbracketed token without a space is one quick run (`quick`).
  - An unbracketed token with a space is split into words. A one-character
    word becomes a `short_pause` group, and a longer word becomes a `quick`
    group.
- `_parse_notes` turns keys into `Note` records through the table. Unmapped
  characters are dropped, and the order of the keys is kept.

The project has seven modules:

- `Text`:
  - the Python string operations the parser relies on: `str.isspace`,
    `strip`, `lstrip`, `rstrip`, `split()`, `split('\n\n')` and substring
    search;
  - `isspace` is the character set itself. Each of the others comes with its
    inverse or a characterisation. For example, the recursive substring test
    holds exactly when the needle occurs at some position
    (`Text.SubstringOccurs`), and `lstrip` and `rstrip` remove a blank prefix
    or suffix and nothing else.
- `KeyTable`: the six sub-tables and their union in `update` order.
- `Notes`: the `Note` record, the duration labels and the timing policies of
  `_parse_notes`.
- `Brackets`:
  - the split on the bracket pattern `\[([^\]]+)\]`;
  - `re.findall`;
  - the bracket test;
  - what `_parse_text_part` returns.
- `Pauses`:
  - the split on `(\|+)`;
  - the classification of pause lengths;
  - what `_parse_paragraph` returns.
- `Parser`: what `parse_input` returns, the paragraph-break rules, and how
  paragraphs compose.
- `Maker`: the class `SheetMusicMaker`.
  - Its constructor builds `keyToNote` by the six successive updates.
  - Its methods are the loops of the four parse functions. Each method is
    proved to return exactly what the matching function of the model returns.

Every parse function takes the key table as a parameter. The lemmas that need
properties of the table assume `IsKeyTable(table)`:

- every name is a natural or a sharp;
- every octave lies in 2..7;
- no key is whitespace, `|`, `[` or `]`.

`KeyTable.KeyToNoteEntries` proves that the real table meets `IsKeyTable`.

### Where the code and its documentation differ

The model follows the code in every case below.

- **`as | df` (one space on each side of one pipe).**
  - The docstring: a "longer" pause.
  - The code: a "longest" pause, because its first test is
    `prev_space > 0 and next_space > 0` (`Pauses.SpacedPipe`).
  - A "longer" pause needs a single pipe with two or more whitespace
    characters on one side and none on the other. This holds with the
    whitespace before the pipe (`Pauses.SpacesThenPipe`) or after it
    (`Pauses.PipeThenSpaces`).
- **`as| |df`.**
  - The docstring: one "longest" pause for two pipes with a space between.
  - The code: the regular expression splits this into two separate one-pipe
    runs, so it makes two "long" pauses (`Pauses.PipeSpacePipe`).
- **The bracket test at `sheet_music_maker.py:159`.**
  - The code asks whether `'[' + token + ']'` occurs anywhere in the text. It
    does not ask whether this token was inside brackets.
  - An unbracketed token whose text also appears in brackets elsewhere is
    therefore treated as a chord. For example, the outer `a` of `a[a]` comes
    out as a chord (`Brackets.ContainmentMisreadsOutside`).
  - The test is modelled as written. A reference definition by position is
    proved to agree with it whenever no such clash occurs
    (`Brackets.ContainmentAgreesWithPosition`).
- **Breaks `parse_input` produces that the documentation does not describe.**
  - A non-blank paragraph followed by a final `"\n\n"` still gets a paragraph
    break, because the last piece after the cut is blank and so the paragraph
    is not the last one (`Parser.TrailingBreak`).
  - A paragraph made only of unmapped keys yields no notes, yet it still adds
    its break when another paragraph follows (`Parser.UnmappedParagraph`,
    `Parser.UnmappedParagraphBreak`).

## Model

| member | source | states |
|---|---|---|
| Maker.SheetMusicMaker.constructor | sheet_music_maker.py:60-67 | starting from an empty table and applying the six sub-table updates in order gives exactly the combined key table `KeyToNote()` |
| Maker.SheetMusicMaker.CollectKeys | sheet_music_maker.py:217-230 | the loop over the characters of `keys` returns one note per mapped character, in order, with the given duration and group (`CharNotes`) |
| Maker.SheetMusicMaker.CollectTokens | sheet_music_maker.py:210-215 | the loop over `keys.split()` returns one fastest note per token that is itself a table key (`TokenNotes`) |
| Maker.SheetMusicMaker.ParseNotesWith | sheet_music_maker.py:198-232 | `_parse_notes` returns, for each of the four timing policies, the notes `NotesFor` describes |
| Maker.SheetMusicMaker.ParseNotes | sheet_music_maker.py:198-232 | the instance method looks keys up in the instance's own `keyToNote` |
| Maker.SheetMusicMaker.ParseWords | sheet_music_maker.py:178-189 | the loop over the words of an unbracketed spaced token returns `WordGroups`: one short-pause or quick group per word that has notes |
| Maker.SheetMusicMaker.ParseToken | sheet_music_maker.py:155-194 | the body of the token loop returns `TokenGroups` for a token known to be bracketed or not |
| Maker.SheetMusicMaker.ParseTextPartWith | sheet_music_maker.py:144-196 | `_parse_text_part` returns `TextPartGroups`: the token loop over the bracket split, using the literal bracket test |
| Maker.SheetMusicMaker.ParseTextPart | sheet_music_maker.py:144-196 | the instance method returns `TextPartGroups` over `keyToNote` |
| Maker.SheetMusicMaker.ParsePart | sheet_music_maker.py:115-140 | the loop body for `parts[i]` skips a blank part, emits one pause note whose length is computed from `len - len(rstrip)` and `len - len(lstrip)` of the neighbouring parts, or parses the stripped text part |
| Maker.SheetMusicMaker.ParseParagraphWith | sheet_music_maker.py:102-142 | `_parse_paragraph` returns `ParagraphGroups`, for text with no pipe and for text split on pipe runs alike |
| Maker.SheetMusicMaker.ParseParagraph | sheet_music_maker.py:102-142 | the instance method returns `ParagraphGroups` over `keyToNote` |
| Maker.SheetMusicMaker.ParseInputWith | sheet_music_maker.py:69-100 | `parse_input` returns `InputGroups`: blank paragraphs are skipped, and every other paragraph except the last is followed by an empty group |
| Maker.SheetMusicMaker.ParseInput | sheet_music_maker.py:69-100 | the instance method returns `InputGroups` over `keyToNote` |
| KeyTable.KeyToNote | sheet_music_maker.py:60-67 | `key_to_note`: the six sub-tables merged by successive `update` calls, so a later table wins on a shared key |
| KeyTable.LowerWhiteKeySetSize | sheet_music_maker.py:25-30 | the lower white sub-table has 14 distinct keys |
| KeyTable.LowerWhiteKeysDomain | sheet_music_maker.py:25-30 | the lower white sub-table's keys are exactly its listed key set |
| KeyTable.LowerBlackKeySetSize | sheet_music_maker.py:31-35 | the lower black sub-table has 10 distinct keys |
| KeyTable.LowerBlackKeysDomain | sheet_music_maker.py:31-35 | the lower black sub-table's keys are exactly its listed key set |
| KeyTable.MiddleWhiteKeySetSize | sheet_music_maker.py:38-42 | the middle white sub-table has 9 distinct keys |
| KeyTable.MiddleWhiteKeysDomain | sheet_music_maker.py:38-42 | the middle white sub-table's keys are exactly its listed key set |
| KeyTable.MiddleBlackKeySetSize | sheet_music_maker.py:43-46 | the middle black sub-table has 7 distinct keys |
| KeyTable.MiddleBlackKeysDomain | sheet_music_maker.py:43-46 | the middle black sub-table's keys are exactly its listed key set |
| KeyTable.UpperWhiteKeySetSize | sheet_music_maker.py:49-54 | the upper white sub-table has 13 distinct keys |
| KeyTable.UpperWhiteKeysDomain | sheet_music_maker.py:49-54 | the upper white sub-table's keys are exactly its listed key set |
| KeyTable.UpperBlackKeySetSize | sheet_music_maker.py:55-58 | the upper black sub-table has 7 distinct keys |
| KeyTable.UpperBlackKeysDomain | sheet_music_maker.py:55-58 | the upper black sub-table's keys are exactly its listed key set |
| KeyTable.LowerWhiteKeysLowerBlackKeysDisjoint | sheet_music_maker.py:25-35 | the lower white and lower black keys share no key |
| KeyTable.LowerWhiteKeysMiddleWhiteKeysDisjoint | sheet_music_maker.py:25-42 | the lower white and middle white keys share no key |
| KeyTable.LowerWhiteKeysMiddleBlackKeysDisjoint | sheet_music_maker.py:25-46 | the lower white and middle black keys share no key |
| KeyTable.LowerWhiteKeysUpperWhiteKeysDisjoint | sheet_music_maker.py:25-54 | the lower white and upper white keys share no key |
| KeyTable.LowerWhiteKeysUpperBlackKeysDisjoint | sheet_music_maker.py:25-58 | the lower white and upper black keys share no key |
| KeyTable.LowerBlackKeysMiddleWhiteKeysDisjoint | sheet_music_maker.py:31-42 | the lower black and middle white keys share no key |
| KeyTable.LowerBlackKeysMiddleBlackKeysDisjoint | sheet_music_maker.py:31-46 | the lower black and middle black keys share no key |
| KeyTable.LowerBlackKeysUpperWhiteKeysDisjoint | sheet_music_maker.py:31-54 | the lower black and upper white keys share no key |
| KeyTable.LowerBlackKeysUpperBlackKeysDisjoint | sheet_music_maker.py:31-58 | the lower black and upper black keys share no key |
| KeyTable.MiddleWhiteKeysMiddleBlackKeysDisjoint | sheet_music_maker.py:38-46 | the middle white and middle black keys share no key |
| KeyTable.MiddleWhiteKeysUpperWhiteKeysDisjoint | sheet_music_maker.py:38-54 | the middle white and upper white keys share no key |
| KeyTable.MiddleWhiteKeysUpperBlackKeysDisjoint | sheet_music_maker.py:38-58 | the middle white and upper black keys share no key |
| KeyTable.MiddleBlackKeysUpperWhiteKeysDisjoint | sheet_music_maker.py:43-54 | the middle black and upper white keys share no key |
| KeyTable.MiddleBlackKeysUpperBlackKeysDisjoint | sheet_music_maker.py:43-58 | the middle black and upper black keys share no key |
| KeyTable.UpperWhiteKeysUpperBlackKeysDisjoint | sheet_music_maker.py:49-58 | the upper white and upper black keys share no key |
| KeyTable.SubTablesDisjoint | sheet_music_maker.py:25-58 | the six sub-tables are pairwise disjoint, so no `update` overrides an earlier entry |
| KeyTable.DisjointMerge | sheet_music_maker.py:61-67 | successive updates with pairwise-disjoint tables give a table whose keys are the union and whose every entry is the one from its own sub-table |
| KeyTable.KeyToNoteIsUnion | sheet_music_maker.py:61-67 | the combined table's keys are the union of the six sub-tables, and each key keeps its sub-table's pitch |
| KeyTable.KeyCount | sheet_music_maker.py:25-67 | the combined table has exactly 60 keys |
| KeyTable.DisjointUnionSize | sheet_music_maker.py:61-67 | the size of a union of six pairwise-disjoint key sets is the sum of their sizes |
| KeyTable.LowerWhiteKeysPitches | sheet_music_maker.py:25-30 | the lower white keys are natural notes in octaves 2 to 3 |
| KeyTable.LowerBlackKeysPitches | sheet_music_maker.py:31-35 | the lower black keys are sharps (a letter then '#') in octaves 2 to 3 |
| KeyTable.MiddleWhiteKeysPitches | sheet_music_maker.py:38-42 | the middle white keys are natural notes in octaves 4 to 5 |
| KeyTable.MiddleBlackKeysPitches | sheet_music_maker.py:43-46 | the middle black keys are sharps in octaves 4 to 5 |
| KeyTable.UpperWhiteKeysPitches | sheet_music_maker.py:49-54 | the upper white keys are natural notes in octaves 5 to 7 |
| KeyTable.UpperBlackKeysPitches | sheet_music_maker.py:55-58 | the upper black keys are sharps in octaves 5 to 7 |
| KeyTable.LowerWhiteKeysNotSeparators | sheet_music_maker.py:25-30 | no lower white key is whitespace, a pipe, '[' or ']' |
| KeyTable.LowerBlackKeysNotSeparators | sheet_music_maker.py:31-35 | no lower black key is whitespace, a pipe, '[' or ']' |
| KeyTable.MiddleWhiteKeysNotSeparators | sheet_music_maker.py:38-42 | no middle white key is whitespace, a pipe, '[' or ']' |
| KeyTable.MiddleBlackKeysNotSeparators | sheet_music_maker.py:43-46 | no middle black key is whitespace, a pipe, '[' or ']' |
| KeyTable.UpperWhiteKeysNotSeparators | sheet_music_maker.py:49-54 | no upper white key is whitespace, a pipe, '[' or ']' |
| KeyTable.UpperBlackKeysNotSeparators | sheet_music_maker.py:55-58 | no upper black key is whitespace, a pipe, '[' or ']' |
| KeyTable.LowerWhiteKeysEntries | sheet_music_maker.py:25-30 | every lower white entry is a well-formed key entry (`IsEntry`) |
| KeyTable.LowerBlackKeysEntries | sheet_music_maker.py:31-35 | every lower black entry is a well-formed key entry |
| KeyTable.MiddleWhiteKeysEntries | sheet_music_maker.py:38-42 | every middle white entry is a well-formed key entry |
| KeyTable.MiddleBlackKeysEntries | sheet_music_maker.py:43-46 | every middle black entry is a well-formed key entry |
| KeyTable.UpperWhiteKeysEntries | sheet_music_maker.py:49-54 | every upper white entry is a well-formed key entry |
| KeyTable.UpperBlackKeysEntries | sheet_music_maker.py:55-58 | every upper black entry is a well-formed key entry |
| KeyTable.MergeEntries | sheet_music_maker.py:61-67 | updates made only with well-formed entries leave only well-formed entries |
| KeyTable.KeyToNoteEntries | sheet_music_maker.py:25-67 | every entry of the combined table is a natural or sharp name in octaves 2 to 7, with a key that is no separator (`IsKeyTable`) |
| Text.IsSpace | sheet_music_maker.py:123-124 | the whitespace set of `str.isspace` behind every strip and split (the ASCII and Unicode space characters) |
| Text.IsSubstring | sheet_music_maker.py:159 | the string `in` test, as a prefix test at each position in turn |
| Text.LeadingSpaces | sheet_music_maker.py:124 | the count of leading whitespace (`len(s) - len(s.lstrip())`): a whitespace prefix, followed by a non-whitespace character or the end |
| Text.TrailingBefore | sheet_music_maker.py:123 | the whitespace run that ends at position `k`: all whitespace, preceded by a non-whitespace character or the start |
| Text.TrailingSpaces | sheet_music_maker.py:123 | the count of trailing whitespace (`len(s) - len(s.rstrip())`): a whitespace suffix, preceded by a non-whitespace character or the start |
| Text.TrailingSpacesIs | sheet_music_maker.py:123 | a maximal whitespace suffix of length `n` is exactly what the count returns |
| Text.TrailingBeforeIs | sheet_music_maker.py:123 | a maximal whitespace run of length `n` ending at `k` is exactly what the count returns |
| Text.LStrip | sheet_music_maker.py:124 | `lstrip()` leaves nothing, or text starting with non-whitespace |
| Text.RStrip | sheet_music_maker.py:123 | `rstrip()` leaves nothing, or text ending with non-whitespace |
| Text.LStripRemovesBlankPrefix | sheet_music_maker.py:124 | `lstrip()` removes a whitespace-only prefix and keeps the rest of the text unchanged |
| Text.RStripRemovesBlankSuffix | sheet_music_maker.py:123 | `rstrip()` removes a whitespace-only suffix and keeps the rest of the text unchanged |
| Text.Strip | sheet_music_maker.py:89 | `strip()` is empty exactly when the text is all whitespace; otherwise it starts and ends with non-whitespace; it leaves text without whitespace unchanged |
| Text.NonSpace | sheet_music_maker.py:178 | the reference for `split()`: the non-whitespace characters, in order |
| Text.NonSpaceAppend | sheet_music_maker.py:178 | taking the non-whitespace characters distributes over concatenation |
| Text.NonSpaceOfBlank | sheet_music_maker.py:178 | whitespace alone has no non-whitespace characters |
| Text.NonSpaceOfSpaceless | sheet_music_maker.py:178 | text without whitespace is its own non-whitespace content |
| Text.WordLength | sheet_music_maker.py:178 | the first word of the text runs up to the first whitespace character or the end |
| Text.ConcatCons | sheet_music_maker.py:113 | concatenating a list that starts with `a` gives `a` followed by the concatenation of the rest |
| Text.SplitWhitespace | sheet_music_maker.py:178 | every word that `split()` yields is non-empty and holds no whitespace |
| Text.SplitWhitespaceConcat | sheet_music_maker.py:178 | the words of `split()`, joined back together, are exactly the non-whitespace characters of the text, in order: nothing is lost or reordered |
| Text.NonSpaceSkip | sheet_music_maker.py:178 | leading whitespace contributes no non-whitespace characters |
| Text.NonSpaceWord | sheet_music_maker.py:178 | the first word is the first part of the non-whitespace characters |
| Text.SplitWhitespaceOfWord | sheet_music_maker.py:178 | one word without whitespace splits into itself |
| Text.SplitWhitespaceSkip | sheet_music_maker.py:178 | a leading whitespace character does not change the split |
| Text.SplitWhitespaceCons | sheet_music_maker.py:178 | a word followed by whitespace or the end is the first element of the split |
| Text.SplitWhitespaceTwoWords | sheet_music_maker.py:212 | two words joined by one space split into those two words |
| Text.WordLengthAppend | sheet_music_maker.py:178 | a word followed by whitespace or the end has exactly its own length as the first word |
| Text.WordLengthOfSpaceless | sheet_music_maker.py:178 | text without whitespace is one word |
| Text.SubstringLength | sheet_music_maker.py:159 | a substring is no longer than the text that contains it |
| Text.SubstringOccurs | sheet_music_maker.py:159 | the substring test (`in`) holds exactly when the needle occurs at some position of the text |
| Text.FindBlankLine | sheet_music_maker.py:85 | the leftmost `"\n\n"` at or after `i`, or the end when there is none |
| Text.SplitBlankLines | sheet_music_maker.py:85 | `split('\n\n')` always returns at least one piece |
| Text.SplitBlankLinesJoin | sheet_music_maker.py:85 | joining the pieces with `"\n\n"` gives back the text (round trip) |
| Text.SplitBlankLinesNoBlankLine | sheet_music_maker.py:85 | no piece contains `"\n\n"` |
| Text.SplitBlankLinesEnds | sheet_music_maker.py:85 | every piece but the last is empty or does not end in '\n', because the cut always takes the leftmost `"\n\n"` |
| Text.SplitBlankLinesOfPiece | sheet_music_maker.py:85 | text without `"\n\n"` is a single piece |
| Text.SplitBlankLinesAppend | sheet_music_maker.py:85 | a piece, `"\n\n"` and more text split into that piece followed by the split of the rest: the converse of the round trip |
| Text.SpacesAfterWord | sheet_music_maker.py:123 | after a word, trailing whitespace is counted in full by `rstrip`, and `strip` gives back the word |
| Text.SpacesBeforeWord | sheet_music_maker.py:124 | before a word, leading whitespace is counted in full by `lstrip`, and `strip` gives back the word |
| Text.LeadingSpacesBeforeWord | sheet_music_maker.py:124 | before a word, `lstrip` counts every whitespace character |
| Text.WordEnds | sheet_music_maker.py:140 | a word has no whitespace to strip at either end |
| Text.BlankCounts | sheet_music_maker.py:116 | `lstrip` and `rstrip` count every character of whitespace-only text, and `strip` leaves it empty |
| Notes.NotesFor | sheet_music_maker.py:198-232 | `_parse_notes` by timing: simultaneous gives one normal note in group 1 per mapped character of the keys stripped and without spaces; fastest, one fastest note per whitespace-separated token that is itself a key; quick and short_pause, one note of that duration per mapped character; unmapped keys are dropped and order is kept |
| Notes.MappedKeys | sheet_music_maker.py:219-222 | the characters that pass `if key in self.key_to_note`: no more than the input, every one a table key |
| Notes.CharNotes | sheet_music_maker.py:217-230 | every note comes from the table, and each carries the given duration and chord group |
| Notes.TokenNotes | sheet_music_maker.py:210-215 | every fastest note comes from the table, with duration fastest and chord group 0 |
| Notes.DeleteSpaces | sheet_music_maker.py:205 | `replace(' ', '')` leaves no space |
| Notes.CharNotesAreMappedKeys | sheet_music_maker.py:217-230 | the notes are exactly the mapped characters in their input order, one note each: unmapped characters are dropped and the order is kept |
| Notes.MappedKeysAppend | sheet_music_maker.py:219-222 | filtering the mapped characters distributes over concatenation, so order is preserved |
| Notes.MappedKeysOfBlank | sheet_music_maker.py:205 | whitespace holds no mapped key |
| Notes.MappedKeysDeleteSpaces | sheet_music_maker.py:205 | deleting spaces changes no mapped key |
| Notes.MappedKeysStrip | sheet_music_maker.py:205 | stripping changes no mapped key |
| Notes.MappedKeysRStrip | sheet_music_maker.py:205 | `rstrip` changes no mapped key |
| Notes.MappedKeysLStrip | sheet_music_maker.py:205 | `lstrip` changes no mapped key |
| Notes.SameMappedKeysSameNotes | sheet_music_maker.py:217-230 | the notes depend only on the mapped characters |
| Notes.SimultaneousNotes | sheet_music_maker.py:203-208 | over a key table, the chord policy gives the notes of the characters as they stand, at normal duration in group 1: `strip().replace(' ', '')` drops no note |
| Notes.NotesForTagged | sheet_music_maker.py:198-232 | the result of each policy is empty or a group of table notes, all tagged with that policy's duration and chord group |
| Notes.SingleKeyTokens | sheet_music_maker.py:212-213 | the keys of the tokens that are one mapped character each |
| Notes.TokenNotesAreSingleKeys | sheet_music_maker.py:210-215 | the fastest policy yields exactly one note per token that is a single mapped character, in order |
| Notes.TokenNotesOfLongTokens | sheet_music_maker.py:212-213 | tokens that are not single characters yield no fastest note |
| Notes.FastestNeedsSingleKeys | sheet_music_maker.py:163-165 | `[as df]`, as two pairs of characters, yields no notes under the fastest policy |
| Notes.SplitTwoPairs | sheet_music_maker.py:212 | two pairs of characters joined by a space split into those two pairs |
| Notes.OneKeyNotes | sheet_music_maker.py:219-222 | one mapped character gives exactly its note |
| Notes.OneKeyChord | sheet_music_maker.py:203-208 | one mapped key under the chord policy gives its note at normal duration in group 1 |
| Brackets.FindAll | sheet_music_maker.py:159 | `re.findall` of the bracket pattern: the captured contents of the bracketed segments, in order |
| Brackets.IsBracketed | sheet_music_maker.py:159 | the bracket test as written: `[token]` occurs in the text, or the token is one of the found contents |
| Brackets.WordGroups | sheet_music_maker.py:179-189 | per word in order: a one-character word gives a short-pause group, a longer word a quick group, and a word without notes gives nothing |
| Brackets.TokenGroups | sheet_music_maker.py:155-194 | one token: bracketed gives a fastest group when it holds a space, else a simultaneous group; unbracketed gives the word groups when it holds a space, else one quick group; no group when there are no notes |
| Brackets.TokensGroups | sheet_music_maker.py:154-194 | the token loop: each token's groups, in the order of the bracket split, each token classified by the bracket test |
| Brackets.TextPartGroups | sheet_music_maker.py:144-196 | `_parse_text_part`: the token loop over the bracket split of the text, with the found contents |
| Brackets.CloseFrom | sheet_music_maker.py:149 | the first ']' at or after `i`, or the end |
| Brackets.CloseFromSkips | sheet_music_maker.py:149 | no ']' comes before the first ']' |
| Brackets.CloseFromIs | sheet_music_maker.py:149 | a ']' with no ']' before it is the first one |
| Brackets.MatchAtIsMatch | sheet_music_maker.py:149 | a slice matches `\[([^\]]+)\]` exactly when it starts at a '[' starting a match and ends just after the first ']' |
| Brackets.MatchIsMatchAt | sheet_music_maker.py:149 | every match of the bracket pattern is the one the scanner finds at its start |
| Brackets.MatchAtIsAMatch | sheet_music_maker.py:149 | what the scanner finds at a '[' is a match of the bracket pattern |
| Brackets.NoCloseBetween | sheet_music_maker.py:149 | between `i` and the first ']' there is no ']' |
| Brackets.FindMatch | sheet_music_maker.py:152 | the leftmost position where a bracket match starts, or the end |
| Brackets.FindMatchSkips | sheet_music_maker.py:152 | no match starts before the leftmost one |
| Brackets.BracketSplit | sheet_music_maker.py:152 | `re.split` with one capture group gives an odd number of parts |
| Brackets.BracketSplitJoin | sheet_music_maker.py:152 | putting the brackets back around the captured parts restores the text (round trip) |
| Brackets.BracketSplitCaptures | sheet_music_maker.py:149-152 | every captured part (odd position) is non-empty and holds no ']' |
| Brackets.UnmatchedOpen | sheet_music_maker.py:149 | a '[' that starts no match is followed by ']' at once, or by no ']' at all |
| Brackets.FirstOutsideUnmatched | sheet_music_maker.py:152 | the text before the first match holds no '[' that could start one |
| Brackets.OpenBeforeMatch | sheet_music_maker.py:152 | an unmatched '[' before a match is an empty pair `[]` |
| Brackets.BracketSplitOutside | sheet_music_maker.py:152 | every part outside brackets (even position) holds only '[' characters that start no match |
| Brackets.BracketSplitWithoutClose | sheet_music_maker.py:152 | text without ']' is not split |
| Brackets.NoOpenSplit | sheet_music_maker.py:152 | text without '[' is not split |
| Brackets.KeyThenBracketedSplit | sheet_music_maker.py:152 | `a[a]` splits into `a`, `a` and an empty tail |
| Brackets.Captures | sheet_music_maker.py:159 | `re.findall` returns one entry per match |
| Brackets.CapturesAt | sheet_music_maker.py:159 | entry `k` of `re.findall` is the captured part `2k+1` of the split |
| Brackets.Group | sheet_music_maker.py:166-167 | `if notes: result.append(notes)` adds at most one group, and none exactly when there are no notes |
| Brackets.TokensGroupsStep | sheet_music_maker.py:154-194 | the groups of the tokens from `i` on are token `i`'s groups followed by the groups of the rest |
| Brackets.AllTextGroupsAppend | sheet_music_maker.py:144-196 | well-formed text groups stay well-formed under concatenation |
| Brackets.GroupIsTextGroup | sheet_music_maker.py:166-194 | a group appended by `_parse_text_part` is a non-empty group of table notes with one policy's tags |
| Brackets.WordGroupsAreTextGroups | sheet_music_maker.py:178-189 | every group from the words of a spaced token is well-formed |
| Brackets.TokenGroupsAreTextGroups | sheet_music_maker.py:155-194 | every group from one token is well-formed |
| Brackets.TokensGroupsAreTextGroups | sheet_music_maker.py:154-194 | every group from the token loop is well-formed |
| Brackets.TextPartGroupsAreTextGroups | sheet_music_maker.py:144-196 | `_parse_text_part` returns only non-empty groups of table notes, each tagged with one policy |
| Brackets.CapturedIsBracketed | sheet_music_maker.py:159 | every captured part passes the bracket test |
| Brackets.TokensAgree | sheet_music_maker.py:154-194 | when the bracket test agrees with the position of every non-blank token, the loop returns the positional groups |
| Brackets.TokensGroupsAt | sheet_music_maker.py:154-194 | one step of the token loop at a token where the test agrees with its position |
| Brackets.PositionalGroupsAt | sheet_music_maker.py:154-194 | one step of the positional reference |
| Brackets.SameTokenGroups | sheet_music_maker.py:155-156 | a blank token gives the same (empty) result whether or not it counts as bracketed |
| Brackets.ContainmentAgreesWithPosition | sheet_music_maker.py:159 | when no token outside brackets also appears inside brackets, the literal bracket test gives the same groups as bracketing by position |
| Brackets.BlankTokenGroups | sheet_music_maker.py:155-156 | an empty or whitespace-only token yields nothing |
| Brackets.WithoutBrackets | sheet_music_maker.py:152-194 | text without '[' is one unbracketed token |
| Brackets.OneKeyToken | sheet_music_maker.py:155-175 | a single key is a non-blank token without a space |
| Brackets.OneKeyTokenGroups | sheet_music_maker.py:161-194 | a single key is one chord note when bracketed and one quick note when not |
| Brackets.UnspacedToken | sheet_music_maker.py:190-194 | an unbracketed token without space yields at most one group: empty exactly when no character is mapped, otherwise the quick notes of the mapped characters in order |
| Brackets.OneWordGroup | sheet_music_maker.py:179-189 | a word with a mapped key becomes exactly one group of its notes, tagged by its length |
| Brackets.WordGroupsPerWord | sheet_music_maker.py:175-189 | when every word has a mapped key, there is one group per word, and group `k` is word `k`'s notes |
| Brackets.GroupOfWordCons | sheet_music_maker.py:179-189 | the per-word correspondence carries over when a word's group is prepended |
| Brackets.WordGroupsTimed | sheet_music_maker.py:175-189 | group `k` holds all of word `k`'s mapped keys, tagged short pause for a one-character word and quick otherwise |
| Brackets.SplitSpacedStep | sheet_music_maker.py:178 | space-separated single keys split into the first key and the split of the rest |
| Brackets.SplitSpaced | sheet_music_maker.py:178 | single keys separated by spaces split into one one-character word per key, in order |
| Brackets.SpacedKeys | sheet_music_maker.py:175-189 | `a s d f` (two or more mapped keys separated by spaces) gives one short-pause group of one note per key, in order |
| Brackets.SpacedTokenGroups | sheet_music_maker.py:175-178 | a spaced token is handled word by word |
| Brackets.WordGroupsOfKeys | sheet_music_maker.py:179-184 | words that are each one mapped key give one short-pause note group each |
| Brackets.OneKeyWord | sheet_music_maker.py:180-184 | a one-key word gives one short-pause note |
| Brackets.ContainmentMisreadsOutside | sheet_music_maker.py:159 | in `a[a]` the literal test treats the outer `a` as a chord; bracketing by position would make it a quick note |
| Brackets.ContainmentReading | sheet_music_maker.py:159 | `a[a]` as the code reads it: two chords |
| Brackets.PositionalReading | sheet_music_maker.py:158-159 | `a[a]` read by position: a quick note, then a chord |
| Brackets.TokensGroupsThree | sheet_music_maker.py:154-194 | three tokens give their groups in order |
| Brackets.PositionalGroupsThree | sheet_music_maker.py:154-194 | three parts read by position give their groups in order, alternating unbracketed and bracketed |
| Pauses.PauseLength | sheet_music_maker.py:127-134 | the pause-length decision in the code's order: longest for several pipes or whitespace on both sides, else longer or long by the whitespace total when there is any, else short |
| Pauses.PauseNote | sheet_music_maker.py:136 | the pause note: key pipe, name PAUSE, octave 0 and the given length |
| Pauses.PieceOf | sheet_music_maker.py:115-140 | what part `i` of the split is: skipped when blank, a pipe run with the neighbours' trailing and leading whitespace (0 at the ends), or stripped text |
| Pauses.PieceGroups | sheet_music_maker.py:115-140 | what one part adds: nothing, one single-note pause group, or the text part's groups |
| Pauses.PiecesGroups | sheet_music_maker.py:115-140 | the part loop: every part's groups, in order |
| Pauses.ParagraphGroups | sheet_music_maker.py:102-142 | `_parse_paragraph`: text without a pipe goes straight to the text-part parser; otherwise the part loop over the pipe split |
| Pauses.PipeRun | sheet_music_maker.py:113 | the length of the leading run of pipe characters, positive when the text starts with a pipe |
| Pauses.PipeRunIsPipes | sheet_music_maker.py:113 | the run is all pipes and maximal |
| Pauses.TextRun | sheet_music_maker.py:113 | the text before the first pipe stops at a pipe or the end |
| Pauses.TextRunNoPipe | sheet_music_maker.py:113 | the text before the first pipe holds no pipe |
| Pauses.PipeSplit | sheet_music_maker.py:113 | splitting on the captured pattern of pipe runs gives an odd number of parts |
| Pauses.PipeSplitJoin | sheet_music_maker.py:113 | the parts, joined, give back the paragraph (round trip) |
| Pauses.PipeSplitShape | sheet_music_maker.py:113 | odd parts are maximal runs of pipes, even parts hold no pipe, and only the first and last part can be empty |
| Pauses.PipeSplitUnfold | sheet_music_maker.py:113 | a paragraph with a pipe splits into its first text, its first run and the split of the rest |
| Pauses.PipeShapeCons | sheet_music_maker.py:113 | prepending a text part and a pipe run keeps the split's shape |
| Pauses.PauseLengthCases | sheet_music_maker.py:127-134 | short means one pipe with no whitespace; long, one pipe with exactly one whitespace character around it; longer, one pipe with two or more on one side only; longest, more than one pipe or whitespace on both sides; each in both directions |
| Pauses.PauseLengthMonotone | sheet_music_maker.py:127-134 | more pipes or more surrounding whitespace never gives a shorter pause in the ranking short < long < longer < longest |
| Pauses.Pieces | sheet_music_maker.py:115 | one piece per part of the split |
| Pauses.PiecesGroupsStep | sheet_music_maker.py:115-140 | the groups from part `i` on are part `i`'s groups followed by the rest's |
| Pauses.AllParagraphGroupsAppend | sheet_music_maker.py:102-142 | well-formed paragraph groups stay well-formed under concatenation |
| Pauses.PieceGroupsShape | sheet_music_maker.py:115-140 | each part adds only pause groups of one pause note or well-formed note groups |
| Pauses.PiecesGroupsShape | sheet_music_maker.py:115-140 | the part loop adds only well-formed groups |
| Pauses.ParagraphGroupsShape | sheet_music_maker.py:102-142 | `_parse_paragraph` returns only pause groups (one pause note) or non-empty groups of table notes |
| Pauses.PauseCountAppend | sheet_music_maker.py:136 | pause groups add up under concatenation |
| Pauses.TextGroupsHaveNoPause | sheet_music_maker.py:144-196 | text parts produce no pause group |
| Pauses.PieceGroupsPauseCount | sheet_music_maker.py:119-137 | a part adds one pause exactly when it is a pipe run |
| Pauses.PieceOfShape | sheet_music_maker.py:116-120 | over the split, a part is a pause run exactly at odd positions |
| Pauses.PiecesPauseCount | sheet_music_maker.py:115-140 | the number of pause groups is the number of pipe-run parts |
| Pauses.PauseRunsOdd | sheet_music_maker.py:115-137 | with runs exactly at odd positions, there are half as many runs as parts, rounded down |
| Pauses.PiecesOfShape | sheet_music_maker.py:115-120 | the pieces of a split are pause runs exactly at odd positions |
| Pauses.PauseCountIsRunCount | sheet_music_maker.py:113-137 | a paragraph with pipes yields exactly as many pause groups as it has maximal runs of pipes |
| Pauses.PiecesInPlace | sheet_music_maker.py:113-140 | over the pipe split, whose parts' groups the paragraph concatenates in order, each pipe run (odd part) adds exactly one pause note, of the length computed from the run's size and its two neighbours' whitespace; each text part (even part) adds only note groups |
| Pauses.SplitPauseCount | sheet_music_maker.py:113-137 | a well-shaped split yields one pause per run |
| Pauses.SplitPauseRuns | sheet_music_maker.py:113-120 | a well-shaped split has one pause run per pipe run |
| Pauses.TextRunAppend | sheet_music_maker.py:113 | text without a pipe, followed by a pipe or the end, is exactly the first text run |
| Pauses.PipeRunAppend | sheet_music_maker.py:113 | a pipe run followed by something other than a pipe is exactly the first run |
| Pauses.PipeSplitCons | sheet_music_maker.py:113 | text, a pipe run and a tail split into the text, the run and the split of the tail |
| Pauses.PipeSplitOfText | sheet_music_maker.py:113 | text without a pipe is one part |
| Pauses.TextPartGroupsOfBlank | sheet_music_maker.py:144-196 | empty text yields no group |
| Pauses.TextPieceGroups | sheet_music_maker.py:140 | a text part is parsed after stripping |
| Pauses.PausePieceGroups | sheet_music_maker.py:122-136 | an inner pipe run yields one pause note whose length comes from the run length, the trailing whitespace of the part before it and the leading whitespace of the part after it |
| Pauses.PiecesGroupsCons | sheet_music_maker.py:115-140 | the part loop processes the first part, then the rest |
| Pauses.SplitOne | sheet_music_maker.py:113 | text, one run and text split into those three parts |
| Pauses.ThreePieces | sheet_music_maker.py:115-140 | three parts give the first text's groups, one pause, then the last text's groups |
| Pauses.PiecesGroupsThree | sheet_music_maker.py:115-140 | three pieces give their groups in order |
| Pauses.OnePause | sheet_music_maker.py:102-142 | a paragraph with one pipe run gives the groups before it, one pause of the computed length, then the groups after it |
| Pauses.SplitTwo | sheet_music_maker.py:113 | text, run, non-empty text, run, text split into those five parts |
| Pauses.SplitConsOne | sheet_music_maker.py:113 | a split that continues after a non-empty text part |
| Pauses.PiecesGroupsFive | sheet_music_maker.py:115-140 | five pieces give their groups in order |
| Pauses.FivePieces | sheet_music_maker.py:115-140 | five parts give text, pause, text, pause, text groups in order |
| Pauses.TwoPauses | sheet_music_maker.py:102-142 | a paragraph with two pipe runs gives the groups and the two pauses in order |
| Pauses.NoPipeAppend | sheet_music_maker.py:113 | two texts without a pipe, joined, hold no pipe |
| Pauses.TightPipe | sheet_music_maker.py:127-134 | two words joined by a single pipe with no whitespace (the `as`, pipe, `df` example) give a short pause between the two words' groups |
| Pauses.PipeThenSpace | sheet_music_maker.py:130-134 | a single pipe with one whitespace character after it and none before gives a long pause |
| Pauses.SpacesThenPipe | sheet_music_maker.py:130-132 | two or more whitespace characters before a single pipe, and none after it, give a longer pause |
| Pauses.PipeThenSpaces | sheet_music_maker.py:130-132 | two or more whitespace characters after a single pipe, and none before it, give a longer pause |
| Pauses.SpacedPipe | sheet_music_maker.py:128-129 | whitespace on both sides of a pipe run gives a longest pause, even one space each side |
| Pauses.DoublePipe | sheet_music_maker.py:128-129 | a run of more than one pipe gives a longest pause whatever the whitespace |
| Pauses.BlankNoPipe | sheet_music_maker.py:116 | whitespace holds no pipe |
| Pauses.PipeBlankPipe | sheet_music_maker.py:115-136 | two single pipes separated by whitespace are two pauses, with the whitespace counted on both |
| Pauses.PipeSpacePipe | sheet_music_maker.py:113-134 | two single pipes separated by one whitespace character, between two words, give two long pauses, not one longest pause |
| Parser.ParagraphStep | sheet_music_maker.py:88-98 | one paragraph of the loop: nothing when blank; otherwise its groups, then an empty break group unless it is the last |
| Parser.ParagraphsGroups | sheet_music_maker.py:88-98 | the paragraph loop: every paragraph's step, in order |
| Parser.InputGroups | sheet_music_maker.py:69-100 | `parse_input`: the paragraph loop over the split at blank lines |
| Parser.AllInputGroupsAppend | sheet_music_maker.py:69-100 | well-formed input groups stay well-formed under concatenation |
| Parser.ParagraphGroupsAreInputGroups | sheet_music_maker.py:93-94 | paragraph groups are well-formed input groups |
| Parser.ParagraphStepShape | sheet_music_maker.py:88-98 | one paragraph step adds only well-formed groups or a break |
| Parser.ParagraphsGroupsShape | sheet_music_maker.py:88-98 | the paragraph loop adds only well-formed groups or breaks |
| Parser.InputGroupsShape | sheet_music_maker.py:69-100 | every group `parse_input` returns is a paragraph break (empty), a pause group or a non-empty group of table notes, so only breaks are empty |
| Parser.BreakCountAppend | sheet_music_maker.py:98 | empty groups add up under concatenation |
| Parser.NoBreakInParagraphGroups | sheet_music_maker.py:93-94 | a paragraph's own groups are never empty |
| Parser.ParagraphStepBreaks | sheet_music_maker.py:89-98 | one paragraph adds a break exactly when it is not blank and not the last |
| Parser.ParagraphsBreakCount | sheet_music_maker.py:88-98 | the loop adds one break per non-blank paragraph that is not the last |
| Parser.InputBreakCount | sheet_music_maker.py:85-99 | the number of empty groups `parse_input` returns is the number of non-blank paragraphs other than the last |
| Parser.ParagraphsGroupsCons | sheet_music_maker.py:88-98 | a paragraph that is not the last adds its groups and a break when non-blank, and nothing when blank |
| Parser.ParagraphThenRest | sheet_music_maker.py:85-98 | parsing `P + "\n\n" + rest` gives P's groups and a break (nothing when P is blank), then the groups of `rest` |
| Parser.LastParagraph | sheet_music_maker.py:96-98 | a single paragraph gets no break after it |
| Parser.TwoParagraphs | sheet_music_maker.py:85-98 | `P1 + "\n\n" + P2` gives P1's groups, one break, then P2's groups |
| Parser.TrailingBreak | sheet_music_maker.py:96-98 | a non-blank paragraph followed by a final `"\n\n"` gets its groups and then a break |
| Parser.BlankParagraphSkipped | sheet_music_maker.py:89-90 | a blank paragraph adds nothing, not even a break |
| Parser.UnmappedParagraph | sheet_music_maker.py:102-142 | a paragraph of unmapped keys only (no whitespace, pipe or bracket) yields no group |
| Parser.UnmappedParagraphBreak | sheet_music_maker.py:85-98 | such a paragraph, followed by another, still adds a break: the input's groups are one empty group, then the next paragraph's |
| Parser.NoSpaceParagraph | sheet_music_maker.py:85 | text without whitespace holds no blank line and does not end in a newline |

## Left out

- `format_output`, `print_key_mappings` and `main`: text formatting, printing and the command line are output and I/O, and are not part of this model.
- The regular-expression engine: the three patterns the parser uses (`(\|+)`, `\[([^\]]+)\]`, and `\|+` in `re.match`) are modelled by dedicated scanners with the same leftmost-match semantics. Other patterns are not modelled.
- The `re.match(r'\|+', part)` test is modelled as `part[0] == '|'`, which is equivalent for a non-empty part.
- `re.findall(bracket_pattern, text)` is recomputed for every token by the source. It is computed once in the model, because every call returns the same list.
- The six sub-tables: the source also keeps them as attributes of the instance. The model keeps them as module constants and stores only `keyToNote` in the object, because nothing reads or changes the sub-tables after construction.
- `_parse_notes` with a timing string other than the four policies returns no notes. `Timing` has only the four policies: every call in the source passes one of them.
- The dataclass default `simultaneous_group = 0` is passed explicitly in every `Note` the model builds.
- The instance parse methods delegate to static methods that take the table as a parameter. What they compute is the same. Aliasing between the table and other objects is not modelled, because none arises.
