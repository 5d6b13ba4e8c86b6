/** Note records and what the note assembler (`_parse_notes`) returns: key
    characters resolved through a key table, each note tagged with the timing
    policy of its group. The table is a parameter: it is the instance's
    `key_to_note`, built by the `SheetMusicMaker` constructor. */
module Notes {

  import opened Text
  import opened KeyTable

  /** The duration labels a Note carries: four pause lengths for pause markers,
      and the labels the four timing policies give to key notes. */
  datatype Duration = Short | Long | Longer | Longest | Normal | Fastest | Quick | ShortPause

  /** The timing policy `_parse_notes` is called with. */
  datatype Timing = Simultaneous | FastestTiming | QuickTiming | ShortPauseTiming

  /** A note event; `simultaneousGroup` is 0 outside a chord. */
  datatype Note = Note(key: string, noteName: string, octave: int, duration: Duration, simultaneousGroup: int)

  /** The Note for a key character found in the table. */
  function KeyNote(table: map<char, Pitch>, c: char, d: Duration, group: int): Note
    requires c in table
  {
    Note([c], table[c].name, table[c].octave, d, group)
  }

  /** The key is one character of the table and the pitch is that entry's. */
  predicate FromTable(table: map<char, Pitch>, n: Note) {
    |n.key| == 1 && n.key[0] in table && table[n.key[0]] == Pitch(n.noteName, n.octave)
  }

  /** The duration label a policy gives its notes. */
  function DurationOf(t: Timing): Duration {
    match t
    case Simultaneous => Normal
    case FastestTiming => Fastest
    case QuickTiming => Quick
    case ShortPauseTiming => ShortPause
  }

  /** The simultaneous-group id a policy gives its notes: 1 for a chord, else 0. */
  function GroupOf(t: Timing): int {
    if t == Simultaneous then 1 else 0
  }

  /** A non-empty group of notes from the table, all tagged by policy `t`. */
  ghost predicate IsNoteGroup(table: map<char, Pitch>, g: seq<Note>, t: Timing) {
    g != [] && forall i :: 0 <= i < |g| ==>
      FromTable(table, g[i]) && g[i].duration == DurationOf(t) && g[i].simultaneousGroup == GroupOf(t)
  }

  /** The characters of `s` that the table maps, in order. */
  function MappedKeys(table: map<char, Pitch>, s: string): (r: string)
    ensures |r| <= |s|
    ensures forall i :: 0 <= i < |r| ==> r[i] in table
  {
    if s == [] then [] else (if s[0] in table then [s[0]] else []) + MappedKeys(table, s[1..])
  }

  /** The loop `for key in keys: if key in key_to_note: append(Note(...))` with
      duration `d` and group id `group`. */
  function CharNotes(table: map<char, Pitch>, keys: string, d: Duration, group: int): (r: seq<Note>)
    ensures forall i :: 0 <= i < |r| ==>
              FromTable(table, r[i]) && r[i].duration == d && r[i].simultaneousGroup == group
  {
    if keys == [] then []
    else (if keys[0] in table then [KeyNote(table, keys[0], d, group)] else []) + CharNotes(table, keys[1..], d, group)
  }

  /** The loop over `keys.split()` of the fastest policy: only a token that is
      itself a key of the table (one mapped character) yields a note. */
  function TokenNotes(table: map<char, Pitch>, tokens: seq<string>): (r: seq<Note>)
    ensures forall i :: 0 <= i < |r| ==>
              FromTable(table, r[i]) && r[i].duration == Fastest && r[i].simultaneousGroup == 0
  {
    if tokens == [] then []
    else
      var t := tokens[0];
      (if |t| == 1 && t[0] in table then [KeyNote(table, t[0], Fastest, 0)] else []) + TokenNotes(table, tokens[1..])
  }

  /** `s.replace(' ', '')`: every space character removed; other whitespace stays. */
  function DeleteSpaces(s: string): (r: string)
    ensures ' ' !in r
  {
    if s == [] then [] else (if s[0] == ' ' then [] else [s[0]]) + DeleteSpaces(s[1..])
  }

  /** What `_parse_notes(keys, timing)` returns. */
  function NotesFor(table: map<char, Pitch>, keys: string, timing: Timing): seq<Note> {
    match timing
    case Simultaneous => CharNotes(table, DeleteSpaces(Strip(keys)), Normal, 1)
    case FastestTiming => TokenNotes(table, SplitWhitespace(keys))
    case QuickTiming => CharNotes(table, keys, Quick, 0)
    case ShortPauseTiming => CharNotes(table, keys, ShortPause, 0)
  }

  /** Unmapped characters yield nothing and the others yield their notes in
      source order: the notes are exactly those of the mapped characters. */
  lemma {:induction false} CharNotesAreMappedKeys(table: map<char, Pitch>, keys: string, d: Duration, group: int)
    ensures var m := MappedKeys(table, keys);
            |CharNotes(table, keys, d, group)| == |m| &&
            forall i :: 0 <= i < |m| ==> CharNotes(table, keys, d, group)[i] == KeyNote(table, m[i], d, group)
  {
    if keys != [] {
      CharNotesAreMappedKeys(table, keys[1..], d, group);
    }
  }

  lemma {:induction false} MappedKeysAppend(table: map<char, Pitch>, a: string, b: string)
    ensures MappedKeys(table, a + b) == MappedKeys(table, a) + MappedKeys(table, b)
  {
    if a == [] {
      assert a + b == b;
    } else {
      assert (a + b)[1..] == a[1..] + b;
      MappedKeysAppend(table, a[1..], b);
    }
  }

  /** No key of a well-formed table is whitespace, so a blank string has no
      mapped characters. */
  lemma {:induction false} MappedKeysOfBlank(table: map<char, Pitch>, s: string)
    requires IsKeyTable(table)
    requires IsBlank(s)
    ensures MappedKeys(table, s) == []
  {
    if s != [] {
      assert s[0] !in table;
      MappedKeysOfBlank(table, s[1..]);
    }
  }

  /** Removing ' ' does not change which characters are mapped. */
  lemma {:induction false} MappedKeysDeleteSpaces(table: map<char, Pitch>, s: string)
    requires IsKeyTable(table)
    ensures MappedKeys(table, DeleteSpaces(s)) == MappedKeys(table, s)
  {
    if s != [] {
      assert IsSpace(' ');
      MappedKeysAppend(table, if s[0] == ' ' then [] else [s[0]], DeleteSpaces(s[1..]));
      MappedKeysDeleteSpaces(table, s[1..]);
    }
  }

  /** Stripping does not change which characters are mapped. */
  lemma MappedKeysStrip(table: map<char, Pitch>, s: string)
    requires IsKeyTable(table)
    ensures MappedKeys(table, Strip(s)) == MappedKeys(table, s)
  {
    MappedKeysRStrip(table, s);
    MappedKeysLStrip(table, RStrip(s));
  }

  lemma MappedKeysRStrip(table: map<char, Pitch>, s: string)
    requires IsKeyTable(table)
    ensures MappedKeys(table, RStrip(s)) == MappedKeys(table, s)
  {
    var n := |s| - TrailingSpaces(s);
    assert s == s[..n] + s[n..];
    MappedKeysAppend(table, s[..n], s[n..]);
    MappedKeysOfBlank(table, s[n..]);
  }

  lemma MappedKeysLStrip(table: map<char, Pitch>, s: string)
    requires IsKeyTable(table)
    ensures MappedKeys(table, LStrip(s)) == MappedKeys(table, s)
  {
    var m := LeadingSpaces(s);
    assert s == s[..m] + s[m..];
    MappedKeysAppend(table, s[..m], s[m..]);
    MappedKeysOfBlank(table, s[..m]);
  }

  /** Two strings with the same mapped characters yield the same notes. */
  lemma SameMappedKeysSameNotes(table: map<char, Pitch>, a: string, b: string, d: Duration, group: int)
    requires MappedKeys(table, a) == MappedKeys(table, b)
    ensures CharNotes(table, a, d, group) == CharNotes(table, b, d, group)
  {
    CharNotesAreMappedKeys(table, a, d, group);
    CharNotesAreMappedKeys(table, b, d, group);
  }

  /** The chord policy resolves exactly the mapped characters of its keys, in
      order: its `strip()` and `replace(' ', '')` change nothing, because no key
      is whitespace. */
  lemma SimultaneousNotes(table: map<char, Pitch>, keys: string)
    requires IsKeyTable(table)
    ensures NotesFor(table, keys, Simultaneous) == CharNotes(table, keys, Normal, 1)
  {
    MappedKeysDeleteSpaces(table, Strip(keys));
    MappedKeysStrip(table, keys);
    SameMappedKeysSameNotes(table, DeleteSpaces(Strip(keys)), keys, Normal, 1);
  }

  /** Every note `_parse_notes` returns comes from the table and carries the
      duration and group id of its policy. */
  lemma NotesForTagged(table: map<char, Pitch>, keys: string, t: Timing)
    ensures NotesFor(table, keys, t) == [] || IsNoteGroup(table, NotesFor(table, keys, t), t)
  {
  }

  /** The tokens of a fastest run that are one mapped key each. */
  function SingleKeyTokens(table: map<char, Pitch>, tokens: seq<string>): (r: string)
    ensures |r| <= |tokens|
    ensures forall i :: 0 <= i < |r| ==> r[i] in table
  {
    if tokens == [] then []
    else
      var t := tokens[0];
      (if |t| == 1 && t[0] in table then [t[0]] else []) + SingleKeyTokens(table, tokens[1..])
  }

  /** The fastest policy yields one note per whitespace-separated token that is a
      single mapped key, in order; every other token yields nothing. */
  lemma {:induction false} TokenNotesAreSingleKeys(table: map<char, Pitch>, tokens: seq<string>)
    ensures var m := SingleKeyTokens(table, tokens);
            |TokenNotes(table, tokens)| == |m| &&
            forall i :: 0 <= i < |m| ==> TokenNotes(table, tokens)[i] == KeyNote(table, m[i], Fastest, 0)
  {
    if tokens != [] {
      TokenNotesAreSingleKeys(table, tokens[1..]);
    }
  }

  /** The fastest policy ignores every token longer than one character. */
  lemma {:induction false} TokenNotesOfLongTokens(table: map<char, Pitch>, tokens: seq<string>)
    requires forall k :: 0 <= k < |tokens| ==> |tokens[k]| != 1
    ensures TokenNotes(table, tokens) == []
  {
    if tokens != [] {
      assert forall k :: 0 <= k < |tokens[1..]| ==> tokens[1..][k] == tokens[k + 1];
      TokenNotesOfLongTokens(table, tokens[1..]);
    }
  }

  /** `[as df]`: neither token is a single key, so the fastest policy yields
      no note at all, whatever the table and the four characters. */
  lemma FastestNeedsSingleKeys(table: map<char, Pitch>, a: char, b: char, c: char, d: char)
    requires !IsSpace(a) && !IsSpace(b) && !IsSpace(c) && !IsSpace(d)
    ensures NotesFor(table, [a, b, ' ', c, d], FastestTiming) == []
  {
    SplitTwoPairs(a, b, c, d);
    TokenNotesOfLongTokens(table, [[a, b], [c, d]]);
  }

  lemma SplitTwoPairs(a: char, b: char, c: char, d: char)
    requires !IsSpace(a) && !IsSpace(b) && !IsSpace(c) && !IsSpace(d)
    ensures SplitWhitespace([a, b, ' ', c, d]) == [[a, b], [c, d]]
  {
    assert [a, b, ' ', c, d] == [a, b] + [' '] + [c, d];
    SplitWhitespaceTwoWords([a, b], [c, d]);
  }

  /** One mapped character gives one note. */
  lemma OneKeyNotes(table: map<char, Pitch>, a: char, d: Duration, group: int)
    requires a in table
    ensures CharNotes(table, [a], d, group) == [KeyNote(table, a, d, group)]
  {
    assert [a][1..] == [];
  }

  /** A chord of one key is that key's note, tagged normal with group id 1. */
  lemma OneKeyChord(table: map<char, Pitch>, a: char)
    requires IsKeyTable(table) && a in table
    ensures NotesFor(table, [a], Simultaneous) == [KeyNote(table, a, Normal, 1)]
  {
    SimultaneousNotes(table, [a]);
    OneKeyNotes(table, a, Normal, 1);
  }
}
