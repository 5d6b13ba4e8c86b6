/** Brackets: splitting text on the pattern `\[([^\]]+)\]` as `re.split` and
    `re.findall` do, and what the text-part parser (`_parse_text_part`) returns. */
module Brackets {

  import opened Text
  import opened KeyTable
  import opened Notes

  /** The position of the first ']' at or after `i` (|s| when there is none). */
  function CloseFrom(s: string, i: nat): (c: nat)
    requires i <= |s|
    ensures i <= c <= |s|
    ensures c < |s| ==> s[c] == ']'
    decreases |s| - i
  {
    if i == |s| || s[i] == ']' then i else CloseFrom(s, i + 1)
  }

  /** No ']' lies between `i` and the one `CloseFrom` finds. */
  lemma {:induction false} CloseFromSkips(s: string, i: nat, k: nat)
    requires i <= |s| && i <= k < CloseFrom(s, i)
    ensures s[k] != ']'
    decreases |s| - i
  {
    if k > i {
      CloseFromSkips(s, i + 1, k);
    }
  }

  /** The pattern `\[([^\]]+)\]` matches at position `j`: a '[' there, and the
      first ']' after it comes after at least one other character. */
  predicate MatchAt(s: string, j: nat) {
    j < |s| && s[j] == '[' && j + 1 < CloseFrom(s, j + 1) < |s|
  }

  /** A whole match of `\[([^\]]+)\]`: '[', at least one character other than
      ']', then ']'. */
  predicate IsBracketMatch(w: string) {
    |w| >= 3 && w[0] == '[' && w[|w| - 1] == ']' && ']' !in w[1..|w| - 1]
  }

  /** `MatchAt` is the regular expression's match: `s[j..k]` matches the pattern
      exactly when the pattern matches at `j` and the first ']' after `j + 1`
      is at `k - 1` (the class `[^\]]+` cannot stop earlier). */
  lemma MatchAtIsMatch(s: string, j: nat, k: nat)
    requires j <= k <= |s|
    ensures IsBracketMatch(s[j..k]) <==> (MatchAt(s, j) && k == CloseFrom(s, j + 1) + 1)
  {
    if IsBracketMatch(s[j..k]) {
      MatchIsMatchAt(s, j, k);
    }
    if MatchAt(s, j) && k == CloseFrom(s, j + 1) + 1 {
      MatchAtIsAMatch(s, j, k);
    }
  }

  lemma MatchIsMatchAt(s: string, j: nat, k: nat)
    requires j <= k <= |s| && IsBracketMatch(s[j..k])
    ensures MatchAt(s, j) && k == CloseFrom(s, j + 1) + 1
  {
    var w := s[j..k];
    assert s[k - 1] == w[|w| - 1];
    forall m | j + 1 <= m < k - 1
      ensures s[m] != ']'
    {
      assert w[1..|w| - 1][m - j - 1] == s[m];
    }
    CloseFromIs(s, j + 1, k - 1);
  }

  /** The first ']' from `i` on is at `c`. */
  lemma {:induction false} CloseFromIs(s: string, i: nat, c: nat)
    requires i <= c < |s| && s[c] == ']'
    requires forall m :: i <= m < c ==> s[m] != ']'
    ensures CloseFrom(s, i) == c
    decreases c - i
  {
    if i < c {
      CloseFromIs(s, i + 1, c);
    }
  }

  lemma MatchAtIsAMatch(s: string, j: nat, k: nat)
    requires j <= k <= |s| && MatchAt(s, j) && k == CloseFrom(s, j + 1) + 1
    ensures IsBracketMatch(s[j..k])
  {
    var w := s[j..k];
    NoCloseBetween(s, j + 1, k - 1);
    assert w[0] == s[j] && w[|w| - 1] == s[k - 1];
    var inner, between := w[1..|w| - 1], s[j + 1..k - 1];
    assert |inner| == |between|;
    forall i | 0 <= i < |inner| ensures inner[i] == between[i] {
      assert inner[i] == s[j + 1 + i];
    }
  }

  /** The text between `i` and the ']' `CloseFrom` finds holds no ']'. */
  lemma NoCloseBetween(s: string, i: nat, c: nat)
    requires i <= |s| && c == CloseFrom(s, i)
    ensures ']' !in s[i..c]
  {
    forall k | 0 <= k < c - i
      ensures s[i..c][k] != ']'
    {
      CloseFromSkips(s, i, i + k);
    }
  }

  /** The leftmost position at or after `i` where the pattern matches, or |s|. */
  function FindMatch(s: string, i: nat): (j: nat)
    requires i <= |s|
    ensures i <= j <= |s|
    ensures j < |s| ==> MatchAt(s, j)
    decreases |s| - i
  {
    if i == |s| || MatchAt(s, i) then i else FindMatch(s, i + 1)
  }

  /** The pattern matches nowhere between `i` and the match `FindMatch` finds. */
  lemma {:induction false} FindMatchSkips(s: string, i: nat, k: nat)
    requires i <= |s| && i <= k < FindMatch(s, i)
    ensures !MatchAt(s, k)
    decreases |s| - i
  {
    if k > i {
      FindMatchSkips(s, i + 1, k);
    }
  }

  /** `re.split(bracket_pattern, s)`: outside text and captured contents
      alternate, starting and ending with outside text. The scan stops at the
      leftmost match and goes on after its ']'. */
  function BracketSplit(s: string): (parts: seq<string>)
    ensures |parts| % 2 == 1
    decreases |s|
  {
    var j := FindMatch(s, 0);
    if j == |s| then [s]
    else
      var c := CloseFrom(s, j + 1);
      [s[..j], s[j + 1..c]] + BracketSplit(s[c + 1..])
  }

  /** The parts of a split put back together, brackets reinserted around the
      captured contents. */
  function JoinBrackets(parts: seq<string>): string
    requires |parts| % 2 == 1
  {
    if |parts| == 1 then parts[0] else parts[0] + ("[" + (parts[1] + ("]" + JoinBrackets(parts[2..]))))
  }

  lemma JoinBracketsCons(a: string, b: string, rest: seq<string>)
    requires |rest| % 2 == 1
    ensures JoinBrackets([a, b] + rest) == a + ("[" + (b + ("]" + JoinBrackets(rest))))
  {
    assert ([a, b] + rest)[2..] == rest;
  }

  /** A string around a match is the outside text, the bracketed contents and the rest. */
  lemma MatchParts(s: string, j: nat, c: nat)
    requires j < c < |s| && s[j] == '[' && s[c] == ']'
    ensures s == s[..j] + ("[" + (s[j + 1..c] + ("]" + s[c + 1..])))
  {
    assert s[..c + 1] == s[..j] + [s[j]] + s[j + 1..c] + [s[c]];
    assert s == s[..c + 1] + s[c + 1..];
  }

  /** The split loses nothing: reinserting the brackets gives back `s`. */
  lemma {:induction false} BracketSplitJoin(s: string)
    ensures JoinBrackets(BracketSplit(s)) == s
    decreases |s|
  {
    var j := FindMatch(s, 0);
    if j < |s| {
      var c := CloseFrom(s, j + 1);
      var rest := BracketSplit(s[c + 1..]);
      assert BracketSplit(s) == [s[..j], s[j + 1..c]] + rest;
      BracketSplitJoin(s[c + 1..]);
      JoinBracketsCons(s[..j], s[j + 1..c], rest);
      MatchParts(s, j, c);
    } else {
      assert BracketSplit(s) == [s];
    }
  }

  /** Part `k` of a split, if it is a captured content (odd position), is
      non-empty and holds no ']'. */
  predicate CaptureOk(parts: seq<string>, k: int) {
    0 <= k < |parts| && k % 2 == 1 ==> parts[k] != [] && ']' !in parts[k]
  }

  /** The captured contents are non-empty and hold no ']'. */
  lemma {:induction false} BracketSplitCaptures(s: string)
    ensures forall k :: CaptureOk(BracketSplit(s), k)
    decreases |s|
  {
    var parts := BracketSplit(s);
    var j := FindMatch(s, 0);
    if j < |s| {
      var c := CloseFrom(s, j + 1);
      NoCloseBetween(s, j + 1, c);
      var rest := BracketSplit(s[c + 1..]);
      BracketSplitCaptures(s[c + 1..]);
      assert parts == [s[..j], s[j + 1..c]] + rest;
      forall k ensures CaptureOk(parts, k) {
        if 2 <= k < |parts| {
          assert CaptureOk(rest, k - 2);
          assert parts[k] == rest[k - 2];
        }
      }
    } else {
      forall k ensures CaptureOk(parts, k) { }
    }
  }

  /** No '[' of outside text `o` could start a match: each is followed directly
      by ']', or, in the last outside part, no ']' follows it at all. */
  predicate UnmatchedOpens(o: string, last: bool) {
    forall i :: 0 <= i < |o| ==> UnmatchedOpenAt(o, i, last)
  }

  /** The character at `i` of outside text `o`, if it is a '[', is followed
      directly by ']', or, in the last outside part, by no ']' at all. */
  predicate UnmatchedOpenAt(o: string, i: int, last: bool) {
    0 <= i < |o| && o[i] == '[' ==> (i + 1 < |o| && o[i + 1] == ']') || (last && ']' !in o[i + 1..])
  }

  /** Part `k` of a split, if it is outside text (even position), has no '['
      that could start a match. */
  predicate OutsideOk(parts: seq<string>, k: int) {
    0 <= k < |parts| && k % 2 == 0 ==> UnmatchedOpens(parts[k], k == |parts| - 1)
  }

  /** A '[' where the pattern does not match is followed directly by ']' or by
      no ']' at all. */
  lemma UnmatchedOpen(s: string, i: nat)
    requires i < |s| && s[i] == '[' && !MatchAt(s, i)
    ensures (i + 1 < |s| && s[i + 1] == ']') || ']' !in s[i + 1..]
  {
    var c := CloseFrom(s, i + 1);
    if c == i + 1 && c < |s| {
      assert s[i + 1] == ']';
    } else {
      assert c == |s|;
      NoCloseBetween(s, i + 1, c);
      assert s[i + 1..c] == s[i + 1..];
      assert ']' !in s[i + 1..];
    }
  }

  /** The outside text before the leftmost match has no '[' that could start one. */
  lemma FirstOutsideUnmatched(s: string)
    ensures UnmatchedOpens(s[..FindMatch(s, 0)], FindMatch(s, 0) == |s|)
  {
    var j := FindMatch(s, 0);
    var o := s[..j];
    var last := j == |s|;
    forall i ensures UnmatchedOpenAt(o, i, last) {
      if 0 <= i < |o| && o[i] == '[' {
        FindMatchSkips(s, 0, i);
        if j < |s| {
          OpenBeforeMatch(s, i, j);
          assert o[i + 1] == s[i + 1];
        } else {
          UnmatchedOpen(s, i);
          assert o == s;
        }
      }
    }
  }

  /** A '[' before a match that does not start one itself is followed directly by ']'. */
  lemma OpenBeforeMatch(s: string, i: nat, j: nat)
    requires i < j < |s| && s[i] == '[' && !MatchAt(s, i) && MatchAt(s, j)
    ensures i + 1 < j && s[i + 1] == ']'
  {
    UnmatchedOpen(s, i);
    var c0 := CloseFrom(s, j + 1);
    assert ']' in s[i + 1..] by {
      assert s[i + 1..][c0 - i - 1] == ']';
    }
  }

  /** The scan is leftmost: no '[' in outside text could have started a match. */
  lemma {:induction false} BracketSplitOutside(s: string)
    ensures forall k :: OutsideOk(BracketSplit(s), k)
    decreases |s|
  {
    var parts := BracketSplit(s);
    FirstOutsideUnmatched(s);
    var j := FindMatch(s, 0);
    if j < |s| {
      var c := CloseFrom(s, j + 1);
      var rest := BracketSplit(s[c + 1..]);
      BracketSplitOutside(s[c + 1..]);
      assert parts == [s[..j], s[j + 1..c]] + rest;
      forall k ensures OutsideOk(parts, k) {
        if 2 <= k < |parts| {
          assert OutsideOk(rest, k - 2);
          assert parts[k] == rest[k - 2];
        }
      }
    } else {
      assert parts == [s] && s[..j] == s;
      forall k ensures OutsideOk(parts, k) { }
    }
  }

  /** Without ']' the pattern never matches: the text is one outside part. */
  lemma BracketSplitWithoutClose(s: string)
    requires ']' !in s
    ensures BracketSplit(s) == [s]
  {
  }

  /** The captured contents of a split: its parts at odd positions. */
  function Captures(parts: seq<string>): (r: seq<string>)
    ensures |r| == |parts| / 2
  {
    if |parts| < 2 then [] else [parts[1]] + Captures(parts[2..])
  }

  /** The `k`-th capture is the part at position 2k+1. */
  lemma {:induction false} CapturesAt(parts: seq<string>, k: nat)
    requires k < |parts| / 2
    ensures Captures(parts)[k] == parts[2 * k + 1]
  {
    if k > 0 {
      CapturesAt(parts[2..], k - 1);
    }
  }

  /** `re.findall(bracket_pattern, text)`: the contents of every match, in order. */
  function FindAll(text: string): seq<string> {
    Captures(BracketSplit(text))
  }

  /** The test `'[' + token + ']' in text or token in re.findall(...)`, with the
      captures of `text` as `found`. */
  predicate IsBracketed(token: string, text: string, found: seq<string>) {
    IsSubstring("[" + token + "]", text) || token in found
  }

  /** `if notes: result.append(notes)`: a group only when it has notes. */
  function Group(notes: seq<Note>): (r: seq<seq<Note>>)
    ensures |r| <= 1 && (r == [] <==> notes == [])
  {
    if notes == [] then [] else [notes]
  }

  /** The words of an unbracketed token with a space: a one-character word gets
      a short pause, a longer word is played quickly. */
  function WordGroups(table: map<char, Pitch>, words: seq<string>): seq<seq<Note>> {
    if words == [] then []
    else
      var w := words[0];
      Group(NotesFor(table, w, WordTiming(w))) + WordGroups(table, words[1..])
  }

  /** The groups of a token known to be bracketed or not: a chord unless it holds
      a space (then the fastest run); unbracketed, word by word when it holds a
      space and otherwise one quick run. Blank tokens yield nothing. */
  function TokenGroups(table: map<char, Pitch>, token: string, bracketed: bool): seq<seq<Note>> {
    if token == [] || Strip(token) == [] then []
    else if bracketed then
      Group(NotesFor(table, token, if ' ' in token then FastestTiming else Simultaneous))
    else if ' ' in token then WordGroups(table, SplitWhitespace(token))
    else Group(NotesFor(table, token, QuickTiming))
  }

  /** The loop over the tokens of the split, each judged by the containment test. */
  function TokensGroups(table: map<char, Pitch>, tokens: seq<string>, text: string, found: seq<string>): seq<seq<Note>> {
    if tokens == [] then []
    else TokenGroups(table, tokens[0], IsBracketed(tokens[0], text, found)) + TokensGroups(table, tokens[1..], text, found)
  }

  lemma TokensGroupsStep(table: map<char, Pitch>, tokens: seq<string>, i: nat, text: string, found: seq<string>)
    requires i < |tokens|
    ensures TokensGroups(table, tokens[i..], text, found)
            == TokenGroups(table, tokens[i], IsBracketed(tokens[i], text, found)) + TokensGroups(table, tokens[i + 1..], text, found)
  {
    assert tokens[i..][0] == tokens[i] && tokens[i..][1..] == tokens[i + 1..];
  }

  /** What `_parse_text_part(text)` returns. The loop recomputes
      `re.findall(bracket_pattern, text)` for each token; it is the same list
      every time, computed once here. */
  function TextPartGroups(table: map<char, Pitch>, text: string): seq<seq<Note>> {
    TokensGroups(table, BracketSplit(text), text, FindAll(text))
  }

  /** Reference reading of the bracket rules: a token is bracketed exactly when
      it was inside brackets, that is, when it is a captured part. */
  function PositionalGroups(table: map<char, Pitch>, parts: seq<string>, bracketed: bool): seq<seq<Note>> {
    if parts == [] then []
    else TokenGroups(table, parts[0], bracketed) + PositionalGroups(table, parts[1..], !bracketed)
  }

  function PositionalTextPartGroups(table: map<char, Pitch>, text: string): seq<seq<Note>> {
    PositionalGroups(table, BracketSplit(text), false)
  }

  /** A group of notes from the table, tagged uniformly by one of the policies. */
  ghost predicate IsTextGroup(table: map<char, Pitch>, g: seq<Note>) {
    IsNoteGroup(table, g, Simultaneous) || IsNoteGroup(table, g, FastestTiming)
    || IsNoteGroup(table, g, QuickTiming) || IsNoteGroup(table, g, ShortPauseTiming)
  }

  ghost predicate AllTextGroups(table: map<char, Pitch>, gs: seq<seq<Note>>) {
    forall k :: 0 <= k < |gs| ==> IsTextGroup(table, gs[k])
  }

  lemma AllTextGroupsAppend(table: map<char, Pitch>, a: seq<seq<Note>>, b: seq<seq<Note>>)
    requires AllTextGroups(table, a) && AllTextGroups(table, b)
    ensures AllTextGroups(table, a + b)
  {
    assert forall k :: |a| <= k < |a + b| ==> (a + b)[k] == b[k - |a|];
  }

  lemma GroupIsTextGroup(table: map<char, Pitch>, keys: string, t: Timing)
    ensures AllTextGroups(table, Group(NotesFor(table, keys, t)))
  {
    NotesForTagged(table, keys, t);
  }

  lemma {:induction false} WordGroupsAreTextGroups(table: map<char, Pitch>, words: seq<string>)
    ensures AllTextGroups(table, WordGroups(table, words))
  {
    if words != [] {
      var w := words[0];
      GroupIsTextGroup(table, w, WordTiming(w));
      WordGroupsAreTextGroups(table, words[1..]);
      AllTextGroupsAppend(table, Group(NotesFor(table, w, WordTiming(w))),
                          WordGroups(table, words[1..]));
    }
  }

  lemma TokenGroupsAreTextGroups(table: map<char, Pitch>, token: string, bracketed: bool)
    ensures AllTextGroups(table, TokenGroups(table, token, bracketed))
  {
    if token == [] || Strip(token) == [] {
    } else if bracketed {
      GroupIsTextGroup(table, token, if ' ' in token then FastestTiming else Simultaneous);
    } else if ' ' in token {
      WordGroupsAreTextGroups(table, SplitWhitespace(token));
    } else {
      GroupIsTextGroup(table, token, QuickTiming);
    }
  }

  lemma {:induction false} TokensGroupsAreTextGroups(table: map<char, Pitch>, tokens: seq<string>, text: string, found: seq<string>)
    ensures AllTextGroups(table, TokensGroups(table, tokens, text, found))
  {
    if tokens != [] {
      TokenGroupsAreTextGroups(table, tokens[0], IsBracketed(tokens[0], text, found));
      TokensGroupsAreTextGroups(table, tokens[1..], text, found);
      AllTextGroupsAppend(table, TokenGroups(table, tokens[0], IsBracketed(tokens[0], text, found)),
                          TokensGroups(table, tokens[1..], text, found));
    }
  }

  /** Every group of a text part is non-empty, its notes come from the table,
      and they carry the duration and group id of a single policy. */
  lemma TextPartGroupsAreTextGroups(table: map<char, Pitch>, text: string)
    ensures AllTextGroups(table, TextPartGroups(table, text))
  {
    TokensGroupsAreTextGroups(table, BracketSplit(text), text, FindAll(text));
  }

  /** Every captured part passes the containment test. */
  lemma CapturedIsBracketed(text: string, k: nat)
    requires k < |BracketSplit(text)| && k % 2 == 1
    ensures IsBracketed(BracketSplit(text)[k], text, FindAll(text))
  {
    var parts := BracketSplit(text);
    CapturesAt(parts, k / 2);
    assert FindAll(text)[k / 2] == parts[k];
  }

  /** The outside parts of `parts[start..]` that are not blank fail the
      containment test in `text`. */
  ghost predicate OutsideUnbracketed(parts: seq<string>, start: nat, text: string)
    requires start <= |parts|
  {
    forall k :: start <= k < |parts| && k % 2 == 0 && Strip(parts[k]) != [] ==> !IsBracketed(parts[k], text, FindAll(text))
  }

  /** The containment test answers for token `k` what its position says: a
      captured content (odd position) is bracketed, outside text is not. Blank
      tokens are exempt, since they yield nothing either way. */
  predicate AgreesAt(parts: seq<string>, k: int, text: string, found: seq<string>) {
    0 <= k < |parts| && parts[k] != [] && Strip(parts[k]) != [] ==>
      IsBracketed(parts[k], text, found) == (k % 2 == 1)
  }

  /** Token by token from position `i`: where the containment test agrees with
      the positions, the two readings give the same groups. */
  lemma {:induction false} TokensAgree(table: map<char, Pitch>, parts: seq<string>, i: nat, text: string, found: seq<string>)
    requires i <= |parts|
    requires forall k :: AgreesAt(parts, k, text, found)
    ensures TokensGroups(table, parts[i..], text, found) == PositionalGroups(table, parts[i..], i % 2 == 1)
    decreases |parts| - i
  {
    if i < |parts| {
      TokensAgree(table, parts, i + 1, text, found);
      TokensGroupsAt(table, parts, i, text, found);
      PositionalGroupsAt(table, parts, i);
    }
  }

  /** One step of the loop, with the containment answer replaced by the position's. */
  lemma TokensGroupsAt(table: map<char, Pitch>, parts: seq<string>, i: nat, text: string, found: seq<string>)
    requires i < |parts| && AgreesAt(parts, i, text, found)
    ensures TokensGroups(table, parts[i..], text, found)
            == TokenGroups(table, parts[i], i % 2 == 1) + TokensGroups(table, parts[i + 1..], text, found)
  {
    assert parts[i..][0] == parts[i] && parts[i..][1..] == parts[i + 1..];
    SameTokenGroups(table, parts[i], IsBracketed(parts[i], text, found), i % 2 == 1);
  }

  lemma PositionalGroupsAt(table: map<char, Pitch>, parts: seq<string>, i: nat)
    requires i < |parts|
    ensures PositionalGroups(table, parts[i..], i % 2 == 1)
            == TokenGroups(table, parts[i], i % 2 == 1) + PositionalGroups(table, parts[i + 1..], (i + 1) % 2 == 1)
  {
    assert parts[i..][0] == parts[i] && parts[i..][1..] == parts[i + 1..];
    assert ((i + 1) % 2 == 1) == !(i % 2 == 1);
  }

  /** The bracket answer matters only for a token that is not blank. */
  lemma SameTokenGroups(table: map<char, Pitch>, token: string, b1: bool, b2: bool)
    requires token == [] || Strip(token) == [] || b1 == b2
    ensures TokenGroups(table, token, b1) == TokenGroups(table, token, b2)
  {
  }

  /** The containment test agrees with the positional reading whenever no
      non-blank outside part happens to occur bracketed somewhere in the text. */
  lemma ContainmentAgreesWithPosition(table: map<char, Pitch>, text: string)
    requires OutsideUnbracketed(BracketSplit(text), 0, text)
    ensures TextPartGroups(table, text) == PositionalTextPartGroups(table, text)
  {
    var parts := BracketSplit(text);
    forall k ensures AgreesAt(parts, k, text, FindAll(text)) {
      if 0 <= k < |parts| && k % 2 == 1 {
        CapturedIsBracketed(text, k);
      }
    }
    TokensAgree(table, parts, 0, text, FindAll(text));
    assert parts[0..] == parts;
  }

  /** A blank token yields no group, bracketed or not. */
  lemma BlankTokenGroups(table: map<char, Pitch>, token: string, bracketed: bool)
    requires token == [] || Strip(token) == []
    ensures TokenGroups(table, token, bracketed) == []
  {
  }

  /** Text without '[' is one unbracketed token. */
  lemma WithoutBrackets(table: map<char, Pitch>, text: string)
    requires '[' !in text
    ensures TextPartGroups(table, text) == TokenGroups(table, text, false)
  {
    NoOpenSplit(text);
    if IsSubstring("[" + text + "]", text) {
      SubstringLength("[" + text + "]", text);
    }
    assert FindAll(text) == [];
    assert !IsBracketed(text, text, []);
    assert [text][1..] == [];
    assert TextPartGroups(table, text) == TokenGroups(table, text, false) + TokensGroups(table, [], text, []);
  }

  /** Without '[' the pattern never matches. */
  lemma NoOpenSplit(s: string)
    requires '[' !in s
    ensures BracketSplit(s) == [s]
  {
  }

  /** "a[a]" splits into the outside "a", the captured "a" and empty outside text. */
  lemma KeyThenBracketedSplit(a: char)
    requires a != '[' && a != ']'
    ensures BracketSplit([a, '[', a, ']']) == [[a], [a], ""]
  {
    var text := [a, '[', a, ']'];
    assert CloseFrom(text, 3) == 3;
    assert CloseFrom(text, 2) == 3;
    assert !MatchAt(text, 0) && MatchAt(text, 1);
    assert FindMatch(text, 0) == 1 by {
      assert FindMatch(text, 1) == 1;
    }
    assert text[..1] == [a] && text[2..3] == [a] && text[4..] == [];
    assert FindMatch([], 0) == 0;
    assert BracketSplit([]) == [[]];
  }

  /** A token of one key is not blank and holds no space. */
  lemma OneKeyToken(table: map<char, Pitch>, a: char)
    requires IsKeyTable(table) && a in table
    ensures [a] != [] && Strip([a]) == [a] && ' ' !in [a]
  {
    assert HasNoSpace([a]);
  }

  lemma OneKeyTokenGroups(table: map<char, Pitch>, a: char)
    requires IsKeyTable(table) && a in table
    ensures TokenGroups(table, [a], true) == [[KeyNote(table, a, Normal, 1)]]
    ensures TokenGroups(table, [a], false) == [[KeyNote(table, a, Quick, 0)]]
  {
    OneKeyToken(table, a);
    OneKeyChord(table, a);
    OneKeyNotes(table, a, Quick, 0);
  }

  /** Unbracketed text without a space is one quick run: a single group of its
      mapped characters in order, or nothing when none is mapped. */
  lemma UnspacedToken(table: map<char, Pitch>, token: string)
    requires Strip(token) != [] && ' ' !in token
    ensures var gs := TokenGroups(table, token, false); var m := MappedKeys(table, token);
            (gs == [] <==> m == []) && |gs| <= 1 &&
            (m != [] ==> |gs[0]| == |m| && forall i :: 0 <= i < |m| ==> gs[0][i] == KeyNote(table, m[i], Quick, 0))
  {
    CharNotesAreMappedKeys(table, token, Quick, 0);
  }

  /** The timing of one word of an unbracketed token with a space. */
  function WordTiming(w: string): Timing {
    if |w| == 1 then ShortPauseTiming else QuickTiming
  }

  /** Group `k` of `gs` is what word `k` yields under its timing. */
  predicate GroupOfWord(table: map<char, Pitch>, words: seq<string>, gs: seq<seq<Note>>, k: int) {
    0 <= k < |words| && k < |gs| ==> gs[k] == NotesFor(table, words[k], WordTiming(words[k]))
  }

  /** A word with a mapped character gives exactly one group. */
  lemma OneWordGroup(table: map<char, Pitch>, w: string)
    requires MappedKeys(table, w) != []
    ensures var g := NotesFor(table, w, WordTiming(w));
            Group(g) == [g] && |g| == |MappedKeys(table, w)| && IsNoteGroup(table, g, WordTiming(w))
  {
    CharNotesAreMappedKeys(table, w, DurationOf(WordTiming(w)), 0);
  }

  /** Unbracketed text with spaces gives one group per whitespace-separated word
      when every word holds a mapped character. */
  lemma {:induction false} WordGroupsPerWord(table: map<char, Pitch>, words: seq<string>)
    requires forall k :: 0 <= k < |words| ==> MappedKeys(table, words[k]) != []
    ensures |WordGroups(table, words)| == |words|
    ensures forall k :: GroupOfWord(table, words, WordGroups(table, words), k)
  {
    if words != [] {
      var w := words[0];
      var rest := words[1..];
      var g := NotesFor(table, w, WordTiming(w));
      var gs := WordGroups(table, words);
      var gr := WordGroups(table, rest);
      assert gs == [g] + gr by {
        OneWordGroup(table, w);
      }
      assert forall k :: 0 <= k < |rest| ==> MappedKeys(table, rest[k]) != [] by {
        forall k | 0 <= k < |rest| ensures MappedKeys(table, rest[k]) != [] {
          assert rest[k] == words[k + 1];
        }
      }
      WordGroupsPerWord(table, rest);
      forall k
        ensures GroupOfWord(table, words, gs, k)
      {
        GroupOfWordCons(table, words, g, gr, k);
      }
    }
  }

  lemma GroupOfWordCons(table: map<char, Pitch>, words: seq<string>, g: seq<Note>, gr: seq<seq<Note>>, k: int)
    requires words != [] && g == NotesFor(table, words[0], WordTiming(words[0]))
    requires GroupOfWord(table, words[1..], gr, k - 1)
    ensures GroupOfWord(table, words, [g] + gr, k)
  {
    if 1 <= k < |words| {
      assert words[k] == words[1..][k - 1];
    }
  }

  /** ... and group `k` holds all of word `k`'s mapped characters, tagged short
      pause when the word is one character long and quick otherwise. */
  lemma WordGroupsTimed(table: map<char, Pitch>, words: seq<string>)
    requires forall k :: 0 <= k < |words| ==> MappedKeys(table, words[k]) != []
    ensures |WordGroups(table, words)| == |words|
    ensures forall k :: 0 <= k < |words| ==>
              |WordGroups(table, words)[k]| == |MappedKeys(table, words[k])|
              && IsNoteGroup(table, WordGroups(table, words)[k], WordTiming(words[k]))
  {
    WordGroupsPerWord(table, words);
    var gs := WordGroups(table, words);
    forall k | 0 <= k < |words|
      ensures |gs[k]| == |MappedKeys(table, words[k])| && IsNoteGroup(table, gs[k], WordTiming(words[k]))
    {
      assert GroupOfWord(table, words, gs, k);
      OneWordGroup(table, words[k]);
    }
  }

  /** `keys` with a space between each two: `Spaced("asdf")` is `a s d f`. */
  function Spaced(keys: string): string {
    if |keys| <= 1 then keys else [keys[0], ' '] + Spaced(keys[1..])
  }

  lemma SplitSpacedStep(keys: string)
    requires |keys| >= 2 && HasNoSpace(keys)
    ensures SplitWhitespace(Spaced(keys)) == [[keys[0]]] + SplitWhitespace(Spaced(keys[1..]))
  {
    var tail := Spaced(keys[1..]);
    var first := [keys[0]];
    assert HasNoSpace(first) by {
      assert !IsSpace(keys[0]);
    }
    assert IsSpace(' ');
    assert Spaced(keys) == first + ([' '] + tail);
    SplitWhitespaceCons(first, [' '] + tail);
    SplitWhitespaceSkip(' ', tail);
  }

  /** Word `k` of `words` is the one-character string `keys[k]`. */
  predicate KeyWordAt(words: seq<string>, keys: string, k: int) {
    0 <= k < |words| && k < |keys| ==> |words[k]| == 1 && words[k][0] == keys[k]
  }

  lemma {:induction false} SplitSpaced(keys: string)
    requires HasNoSpace(keys)
    ensures |SplitWhitespace(Spaced(keys))| == |keys|
    ensures forall k :: KeyWordAt(SplitWhitespace(Spaced(keys)), keys, k)
  {
    if |keys| == 1 {
      SplitWhitespaceOfWord(keys);
    } else if |keys| >= 2 {
      var tail := keys[1..];
      assert HasNoSpace(tail);
      SplitSpacedStep(keys);
      SplitSpaced(tail);
      var words := SplitWhitespace(Spaced(keys));
      var rest := SplitWhitespace(Spaced(tail));
      forall k
        ensures KeyWordAt(words, keys, k)
      {
        if 1 <= k < |keys| {
          assert KeyWordAt(rest, tail, k - 1);
          assert words[k] == rest[k - 1] && tail[k - 1] == keys[k];
        }
      }
    }
  }

  /** Single keys separated by spaces (such as `a s d f`), unbracketed, give one
      short-pause group of one note per key. */
  lemma SpacedKeys(table: map<char, Pitch>, keys: string)
    requires |keys| >= 2 && HasNoSpace(keys)
    requires forall k :: 0 <= k < |keys| ==> keys[k] in table
    ensures |TokenGroups(table, Spaced(keys), false)| == |keys|
    ensures forall k :: 0 <= k < |keys| ==>
              TokenGroups(table, Spaced(keys), false)[k] == [KeyNote(table, keys[k], ShortPause, 0)]
  {
    var words := SplitWhitespace(Spaced(keys));
    SpacedTokenGroups(table, keys);
    SplitSpaced(keys);
    assert forall k :: 0 <= k < |words| ==> |words[k]| == 1 && words[k][0] in table by {
      forall k | 0 <= k < |words|
        ensures |words[k]| == 1 && words[k][0] in table
      {
        assert KeyWordAt(words, keys, k);
      }
    }
    WordGroupsOfKeys(table, words);
    forall k | 0 <= k < |keys|
      ensures WordGroups(table, words)[k] == [KeyNote(table, keys[k], ShortPause, 0)]
    {
      assert KeyWordAt(words, keys, k);
      assert KeyGroupAt(table, words, WordGroups(table, words), k);
    }
  }

  /** Spaced keys form an unbracketed token with a space: it is split into words. */
  lemma SpacedTokenGroups(table: map<char, Pitch>, keys: string)
    requires |keys| >= 2 && HasNoSpace(keys)
    ensures TokenGroups(table, Spaced(keys), false) == WordGroups(table, SplitWhitespace(Spaced(keys)))
  {
    var token := Spaced(keys);
    assert token == [keys[0], ' '] + Spaced(keys[1..]);
    assert token[0] == keys[0] && token[1] == ' ';
    assert !IsBlank(token) && ' ' in token;
  }

  /** Group `k` of `gs` is the short-pause note of the one-key word `words[k]`. */
  predicate KeyGroupAt(table: map<char, Pitch>, words: seq<string>, gs: seq<seq<Note>>, k: int) {
    0 <= k < |words| && k < |gs| && |words[k]| == 1 && words[k][0] in table ==>
      gs[k] == [KeyNote(table, words[k][0], ShortPause, 0)]
  }

  /** Words that are single mapped keys each give one short-pause note. */
  lemma {:induction false} WordGroupsOfKeys(table: map<char, Pitch>, words: seq<string>)
    requires forall k :: 0 <= k < |words| ==> |words[k]| == 1 && words[k][0] in table
    ensures |WordGroups(table, words)| == |words|
    ensures forall k :: KeyGroupAt(table, words, WordGroups(table, words), k)
  {
    if words != [] {
      var rest := words[1..];
      var first := [KeyNote(table, words[0][0], ShortPause, 0)];
      assert WordGroups(table, words) == [first] + WordGroups(table, rest) by {
        OneKeyWord(table, words[0]);
      }
      assert forall k :: 0 <= k < |rest| ==> rest[k] == words[k + 1];
      WordGroupsOfKeys(table, rest);
      forall k
        ensures KeyGroupAt(table, words, WordGroups(table, words), k)
      {
        if 1 <= k < |words| {
          assert KeyGroupAt(table, rest, WordGroups(table, rest), k - 1);
        }
      }
    }
  }

  /** A one-key word is one group: its short-pause note. */
  lemma OneKeyWord(table: map<char, Pitch>, w: string)
    requires |w| == 1 && w[0] in table
    ensures Group(NotesFor(table, w, WordTiming(w))) == [[KeyNote(table, w[0], ShortPause, 0)]]
  {
    assert w == [w[0]];
    OneKeyNotes(table, w[0], ShortPause, 0);
  }

  /** "a[a]": the outside "a" also occurs bracketed, so the containment test
      plays it as a chord, where the positional reading plays it quickly. */
  lemma ContainmentMisreadsOutside(table: map<char, Pitch>, a: char)
    requires IsKeyTable(table) && a in table
    ensures TextPartGroups(table, [a, '[', a, ']'])
            == [[KeyNote(table, a, Normal, 1)], [KeyNote(table, a, Normal, 1)]]
    ensures PositionalTextPartGroups(table, [a, '[', a, ']'])
            == [[KeyNote(table, a, Quick, 0)], [KeyNote(table, a, Normal, 1)]]
  {
    ContainmentReading(table, a);
    PositionalReading(table, a);
  }

  lemma ContainmentReading(table: map<char, Pitch>, a: char)
    requires IsKeyTable(table) && a in table
    ensures TextPartGroups(table, [a, '[', a, ']'])
            == [[KeyNote(table, a, Normal, 1)], [KeyNote(table, a, Normal, 1)]]
  {
    var text := [a, '[', a, ']'];
    KeyThenBracketedSplit(a);
    var found := FindAll(text);
    assert IsBracketed([a], text, found) by {
      assert "[" + [a] + "]" <= text[1..];
    }
    OneKeyTokenGroups(table, a);
    BlankTokenGroups(table, "", IsBracketed("", text, found));
    TokensGroupsThree(table, [[a], [a], ""], text, found);
  }

  lemma PositionalReading(table: map<char, Pitch>, a: char)
    requires IsKeyTable(table) && a in table
    ensures PositionalTextPartGroups(table, [a, '[', a, ']'])
            == [[KeyNote(table, a, Quick, 0)], [KeyNote(table, a, Normal, 1)]]
  {
    KeyThenBracketedSplit(a);
    OneKeyTokenGroups(table, a);
    BlankTokenGroups(table, "", false);
    PositionalGroupsThree(table, [[a], [a], ""]);
  }

  lemma TokensGroupsThree(table: map<char, Pitch>, tokens: seq<string>, text: string, found: seq<string>)
    requires |tokens| == 3
    ensures TokensGroups(table, tokens, text, found)
            == TokenGroups(table, tokens[0], IsBracketed(tokens[0], text, found))
               + (TokenGroups(table, tokens[1], IsBracketed(tokens[1], text, found))
               + TokenGroups(table, tokens[2], IsBracketed(tokens[2], text, found)))
  {
    var t1 := tokens[1..];
    var t2 := t1[1..];
    assert t2[1..] == [];
    assert TokensGroups(table, t2, text, found)
           == TokenGroups(table, tokens[2], IsBracketed(tokens[2], text, found)) + TokensGroups(table, [], text, found);
    assert TokensGroups(table, t1, text, found)
           == TokenGroups(table, tokens[1], IsBracketed(tokens[1], text, found)) + TokensGroups(table, t2, text, found);
  }

  lemma PositionalGroupsThree(table: map<char, Pitch>, tokens: seq<string>)
    requires |tokens| == 3
    ensures PositionalGroups(table, tokens, false)
            == TokenGroups(table, tokens[0], false)
               + (TokenGroups(table, tokens[1], true) + TokenGroups(table, tokens[2], false))
  {
    var t1 := tokens[1..];
    var t2 := t1[1..];
    assert t2[1..] == [];
    assert PositionalGroups(table, t2, false) == TokenGroups(table, tokens[2], false) + PositionalGroups(table, [], true);
    assert PositionalGroups(table, t1, true) == TokenGroups(table, tokens[1], true) + PositionalGroups(table, t2, false);
  }
}
