/** The `SheetMusicMaker` object: the constructor builds `key_to_note` from the
    six sub-tables by successive updates, and the parse methods are the loops of
    `parse_input`, `_parse_paragraph`, `_parse_text_part` and `_parse_notes`,
    each proved to compute the matching function of the model. */
module Maker {

  import opened Text
  import opened KeyTable
  import opened Notes
  import opened Brackets
  import opened Pauses
  import opened Parser

  lemma AppendAssoc<T>(a: seq<T>, b: seq<T>, c: seq<T>)
    ensures a + (b + c) == (a + b) + c
  {
  }

  class SheetMusicMaker {
    /** `self.key_to_note`: the combined key table. */
    var keyToNote: map<char, Pitch>

    /** Starts from an empty table and applies the six `update` calls in order;
        `m + t` is `m` updated with the entries of `t`, which override on a
        shared key. What the result holds is proved about `KeyToNote` (the
        60 keys, their octaves and names, the disjoint sub-tables). */
    constructor ()
      ensures keyToNote == KeyToNote()
    {
      keyToNote := map[];
      keyToNote := keyToNote + LowerWhiteKeys;
      keyToNote := keyToNote + LowerBlackKeys;
      keyToNote := keyToNote + MiddleWhiteKeys;
      keyToNote := keyToNote + MiddleBlackKeys;
      keyToNote := keyToNote + UpperWhiteKeys;
      keyToNote := keyToNote + UpperBlackKeys;
    }

    /** The loop over `keys` shared by the chord, quick and short-pause policies:
        each mapped character yields its note with duration `d` and group `group`. */
    static method CollectKeys(table: map<char, Pitch>, keys: string, d: Duration, group: int) returns (notes: seq<Note>)
      ensures notes == CharNotes(table, keys, d, group)
    {
      notes := [];
      var i := 0;
      while i < |keys|
        invariant i <= |keys|
        invariant notes + CharNotes(table, keys[i..], d, group) == CharNotes(table, keys, d, group)
      {
        var key := keys[i];
        var add: seq<Note> := [];
        if key in table {
          var pitch := table[key];
          add := [Note([key], pitch.name, pitch.octave, d, group)];
        }
        assert (notes + add) + CharNotes(table, keys[i + 1..], d, group) == CharNotes(table, keys, d, group) by {
          ghost var rest := keys[i..];
          ghost var tail := CharNotes(table, keys[i + 1..], d, group);
          assert rest[0] == key && rest[1..] == keys[i + 1..];
          assert CharNotes(table, rest, d, group) == add + tail;
          AppendAssoc(notes, add, tail);
        }
        notes := notes + add;
        i := i + 1;
      }
      assert keys[|keys|..] == [];
    }

    /** The loop over `keys.split()` of the fastest policy: a token yields a note
        only when it is itself a key of the table. */
    static method CollectTokens(table: map<char, Pitch>, tokens: seq<string>) returns (notes: seq<Note>)
      ensures notes == TokenNotes(table, tokens)
    {
      notes := [];
      var i := 0;
      while i < |tokens|
        invariant i <= |tokens|
        invariant notes + TokenNotes(table, tokens[i..]) == TokenNotes(table, tokens)
      {
        var key := tokens[i];
        var add: seq<Note> := [];
        if |key| == 1 && key[0] in table {
          var pitch := table[key[0]];
          add := [Note(key, pitch.name, pitch.octave, Fastest, 0)];
        }
        assert (notes + add) + TokenNotes(table, tokens[i + 1..]) == TokenNotes(table, tokens) by {
          ghost var rest := tokens[i..];
          ghost var tail := TokenNotes(table, tokens[i + 1..]);
          assert rest[0] == key && rest[1..] == tokens[i + 1..];
          assert |key| == 1 ==> key == [key[0]];
          assert TokenNotes(table, rest) == add + tail;
          AppendAssoc(notes, add, tail);
        }
        notes := notes + add;
        i := i + 1;
      }
      assert tokens[|tokens|..] == [];
    }

    /** `_parse_notes(keys, timing)` over the table `table`. */
    static method ParseNotesWith(table: map<char, Pitch>, keys: string, timing: Timing) returns (notes: seq<Note>)
      ensures notes == NotesFor(table, keys, timing)
    {
      match timing
      case Simultaneous =>
        notes := CollectKeys(table, DeleteSpaces(Strip(keys)), Normal, 1);
      case FastestTiming =>
        notes := CollectTokens(table, SplitWhitespace(keys));
      case QuickTiming =>
        notes := CollectKeys(table, keys, Quick, 0);
      case ShortPauseTiming =>
        notes := CollectKeys(table, keys, ShortPause, 0);
    }

    /** The loop over the words of an unbracketed token with a space. */
    static method ParseWords(table: map<char, Pitch>, words: seq<string>) returns (groups: seq<seq<Note>>)
      ensures groups == WordGroups(table, words)
    {
      groups := [];
      var j := 0;
      while j < |words|
        invariant j <= |words|
        invariant groups + WordGroups(table, words[j..]) == WordGroups(table, words)
      {
        var keyGroup := words[j];
        var notes := ParseNotesWith(table, keyGroup, if |keyGroup| == 1 then ShortPauseTiming else QuickTiming);
        var add: seq<seq<Note>> := [];
        if notes != [] {
          add := [notes];
        }
        assert (groups + add) + WordGroups(table, words[j + 1..]) == WordGroups(table, words) by {
          ghost var rest := words[j..];
          ghost var tail := WordGroups(table, words[j + 1..]);
          assert rest[0] == keyGroup && rest[1..] == words[j + 1..];
          assert WordGroups(table, rest) == add + tail;
          AppendAssoc(groups, add, tail);
        }
        groups := groups + add;
        j := j + 1;
      }
      assert words[|words|..] == [];
    }

    /** The body of the token loop of `_parse_text_part`, once the token is known
        to be bracketed or not. */
    static method ParseToken(table: map<char, Pitch>, token: string, isBracketed: bool) returns (groups: seq<seq<Note>>)
      ensures groups == TokenGroups(table, token, isBracketed)
    {
      groups := [];
      if token == [] || Strip(token) == [] {
        return;
      }
      if isBracketed {
        var notes := ParseNotesWith(table, token, if ' ' in token then FastestTiming else Simultaneous);
        if notes != [] {
          groups := [notes];
        }
      } else if ' ' in token {
        groups := ParseWords(table, SplitWhitespace(token));
      } else {
        var notes := ParseNotesWith(table, token, QuickTiming);
        if notes != [] {
          groups := [notes];
        }
      }
    }

    /** `_parse_text_part(text)` over the table `table`. */
    static method ParseTextPartWith(table: map<char, Pitch>, text: string) returns (groups: seq<seq<Note>>)
      ensures groups == TextPartGroups(table, text)
    {
      var tokens := BracketSplit(text);
      var found := FindAll(text);
      groups := [];
      var i := 0;
      while i < |tokens|
        invariant i <= |tokens|
        invariant groups + TokensGroups(table, tokens[i..], text, found) == TokensGroups(table, tokens, text, found)
      {
        var token := tokens[i];
        var isBracketed := IsSubstring("[" + token + "]", text) || token in found;
        var more := ParseToken(table, token, isBracketed);
        assert (groups + more) + TokensGroups(table, tokens[i + 1..], text, found)
               == TokensGroups(table, tokens, text, found) by {
          TokensGroupsStep(table, tokens, i, text, found);
          AppendAssoc(groups, more, TokensGroups(table, tokens[i + 1..], text, found));
        }
        groups := groups + more;
        i := i + 1;
      }
      assert tokens[|tokens|..] == [];
    }

    /** The body of the loop of `_parse_paragraph` for `parts[i]`: skip a blank
        part, emit the pause for a run of pipes, or parse a text part, stripped. */
    static method ParsePart(table: map<char, Pitch>, parts: seq<string>, i: nat) returns (groups: seq<seq<Note>>)
      requires i < |parts|
      ensures groups == PieceGroups(table, PieceOf(parts, i))
    {
      var part := parts[i];
      if part == [] || Strip(part) == [] {
        groups := [];
      } else if part[0] == '|' {
        var pipeCount := |part|;
        var prevSpace := if i > 0 then |parts[i - 1]| - |RStrip(parts[i - 1])| else 0;
        var nextSpace := if i < |parts| - 1 then |parts[i + 1]| - |LStrip(parts[i + 1])| else 0;
        groups := [[PauseNote(PauseLength(pipeCount, prevSpace, nextSpace))]];
      } else {
        groups := ParseTextPartWith(table, Strip(part));
      }
    }

    /** `_parse_paragraph(text)` over the table `table`. */
    static method ParseParagraphWith(table: map<char, Pitch>, text: string) returns (groups: seq<seq<Note>>)
      ensures groups == ParagraphGroups(table, text)
    {
      if '|' !in text {
        groups := ParseTextPartWith(table, text);
        return;
      }
      var parts := PipeSplit(text);
      ghost var pieces := Pieces(parts);
      groups := [];
      var i := 0;
      while i < |parts|
        invariant i <= |parts|
        invariant groups + PiecesGroups(table, pieces[i..]) == PiecesGroups(table, pieces)
      {
        var add := ParsePart(table, parts, i);
        assert (groups + add) + PiecesGroups(table, pieces[i + 1..]) == PiecesGroups(table, pieces) by {
          PiecesGroupsStep(table, parts, i);
          AppendAssoc(groups, add, PiecesGroups(table, pieces[i + 1..]));
        }
        groups := groups + add;
        i := i + 1;
      }
      assert pieces[|parts|..] == [];
    }

    /** `parse_input(text)` over the table `table`. */
    static method ParseInputWith(table: map<char, Pitch>, text: string) returns (result: seq<seq<Note>>)
      ensures result == InputGroups(table, text)
    {
      var paragraphs := SplitBlankLines(text);
      result := [];
      var paraIdx := 0;
      while paraIdx < |paragraphs|
        invariant paraIdx <= |paragraphs|
        invariant result + ParagraphsGroups(table, paragraphs[paraIdx..]) == ParagraphsGroups(table, paragraphs)
      {
        var paragraph := paragraphs[paraIdx];
        var add: seq<seq<Note>> := [];
        if Strip(paragraph) != [] {
          var paraNotes := ParseParagraphWith(table, paragraph);
          add := paraNotes;
          if paraIdx < |paragraphs| - 1 {
            add := add + [[]];
          }
        }
        assert (result + add) + ParagraphsGroups(table, paragraphs[paraIdx + 1..])
               == ParagraphsGroups(table, paragraphs) by {
          ghost var rest := paragraphs[paraIdx..];
          ghost var tail := ParagraphsGroups(table, paragraphs[paraIdx + 1..]);
          assert rest[0] == paragraph && rest[1..] == paragraphs[paraIdx + 1..];
          assert ParagraphStep(table, paragraph, |rest| == 1) == add;
          assert ParagraphsGroups(table, rest) == add + tail;
          AppendAssoc(result, add, tail);
        }
        result := result + add;
        paraIdx := paraIdx + 1;
      }
      assert paragraphs[|paragraphs|..] == [];
    }

    /** `self.parse_input(text)`. */
    method ParseInput(text: string) returns (result: seq<seq<Note>>)
      ensures result == InputGroups(keyToNote, text)
    {
      result := ParseInputWith(keyToNote, text);
    }

    /** `self._parse_paragraph(text)`. */
    method ParseParagraph(text: string) returns (groups: seq<seq<Note>>)
      ensures groups == ParagraphGroups(keyToNote, text)
    {
      groups := ParseParagraphWith(keyToNote, text);
    }

    /** `self._parse_text_part(text)`. */
    method ParseTextPart(text: string) returns (groups: seq<seq<Note>>)
      ensures groups == TextPartGroups(keyToNote, text)
    {
      groups := ParseTextPartWith(keyToNote, text);
    }

    /** `self._parse_notes(keys, timing)`. */
    method ParseNotes(keys: string, timing: Timing) returns (notes: seq<Note>)
      ensures notes == NotesFor(keyToNote, keys, timing)
    {
      notes := ParseNotesWith(keyToNote, keys, timing);
    }
  }
}
