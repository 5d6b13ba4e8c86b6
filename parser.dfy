/** The paragraph layer (`parse_input`): the input is cut at each "\n\n", blank
    paragraphs are skipped, and an empty group marks the break after every
    paragraph that is not the last piece of the cut. */
module Parser {

  import opened Text
  import opened KeyTable
  import opened Notes
  import opened Brackets
  import opened Pauses

  /** One round of the loop of `parse_input`: a blank paragraph adds nothing;
      any other adds its groups, then a break unless it is the last piece. */
  function ParagraphStep(table: map<char, Pitch>, p: string, last: bool): seq<seq<Note>> {
    if Strip(p) == [] then [] else ParagraphGroups(table, p) + (if last then [] else [[]])
  }

  /** The loop of `parse_input` over the paragraphs `ps`. */
  function ParagraphsGroups(table: map<char, Pitch>, ps: seq<string>): seq<seq<Note>> {
    if ps == [] then [] else ParagraphStep(table, ps[0], |ps| == 1) + ParagraphsGroups(table, ps[1..])
  }

  /** What `parse_input(text)` returns. */
  function InputGroups(table: map<char, Pitch>, text: string): seq<seq<Note>> {
    ParagraphsGroups(table, SplitBlankLines(text))
  }

  /** A paragraph break (the empty group) or a group of a paragraph. */
  ghost predicate IsInputGroup(table: map<char, Pitch>, g: seq<Note>) {
    g == [] || IsParagraphGroup(table, g)
  }

  ghost predicate AllInputGroups(table: map<char, Pitch>, gs: seq<seq<Note>>) {
    forall k :: 0 <= k < |gs| ==> IsInputGroup(table, gs[k])
  }

  lemma AllInputGroupsAppend(table: map<char, Pitch>, a: seq<seq<Note>>, b: seq<seq<Note>>)
    requires AllInputGroups(table, a) && AllInputGroups(table, b)
    ensures AllInputGroups(table, a + b)
  {
    assert forall k :: |a| <= k < |a + b| ==> (a + b)[k] == b[k - |a|];
  }

  lemma ParagraphGroupsAreInputGroups(table: map<char, Pitch>, text: string)
    ensures AllInputGroups(table, ParagraphGroups(table, text))
  {
    ParagraphGroupsShape(table, text);
  }

  lemma ParagraphStepShape(table: map<char, Pitch>, p: string, last: bool)
    ensures AllInputGroups(table, ParagraphStep(table, p, last))
  {
    if Strip(p) != [] {
      ParagraphGroupsAreInputGroups(table, p);
      AllInputGroupsAppend(table, ParagraphGroups(table, p), if last then [] else [[]]);
    }
  }

  lemma {:induction false} ParagraphsGroupsShape(table: map<char, Pitch>, ps: seq<string>)
    ensures AllInputGroups(table, ParagraphsGroups(table, ps))
  {
    if ps != [] {
      ParagraphsGroupsShape(table, ps[1..]);
      ParagraphStepShape(table, ps[0], |ps| == 1);
      AllInputGroupsAppend(table, ParagraphStep(table, ps[0], |ps| == 1), ParagraphsGroups(table, ps[1..]));
    }
  }

  /** Every group of the result is a paragraph break (empty), a single pause
      marker, or a non-empty group of notes from the table tagged by one policy. */
  lemma InputGroupsShape(table: map<char, Pitch>, text: string)
    ensures AllInputGroups(table, InputGroups(table, text))
  {
    ParagraphsGroupsShape(table, SplitBlankLines(text));
  }

  /** The number of empty groups. */
  function BreakCount(gs: seq<seq<Note>>): nat {
    if gs == [] then 0 else (if |gs[0]| == 0 then 1 else 0) + BreakCount(gs[1..])
  }

  lemma {:induction false} BreakCountAppend(a: seq<seq<Note>>, b: seq<seq<Note>>)
    ensures BreakCount(a + b) == BreakCount(a) + BreakCount(b)
  {
    if a == [] {
      assert a + b == b;
    } else {
      assert (a + b)[1..] == a[1..] + b;
      BreakCountAppend(a[1..], b);
    }
  }

  /** A paragraph's own groups are never empty. */
  lemma {:induction false} NoBreakInParagraphGroups(table: map<char, Pitch>, gs: seq<seq<Note>>)
    requires AllParagraphGroups(table, gs)
    ensures BreakCount(gs) == 0
  {
    if gs != [] {
      assert IsParagraphGroup(table, gs[0]);
      assert gs[0] != [] by {
        if !IsPauseGroup(gs[0]) {
          assert IsTextGroup(table, gs[0]);
        }
      }
      assert forall k :: 0 <= k < |gs[1..]| ==> gs[1..][k] == gs[k + 1];
      NoBreakInParagraphGroups(table, gs[1..]);
    }
  }

  /** The paragraphs of `ps` that are not blank and not the last one. */
  function BreaksFor(ps: seq<string>): nat {
    if ps == [] then 0 else (if Strip(ps[0]) != [] && |ps| > 1 then 1 else 0) + BreaksFor(ps[1..])
  }

  /** A round of the loop adds one break exactly when the paragraph is not
      blank and not the last. */
  lemma ParagraphStepBreaks(table: map<char, Pitch>, p: string, last: bool)
    ensures BreakCount(ParagraphStep(table, p, last)) == if Strip(p) != [] && !last then 1 else 0
  {
    if Strip(p) != [] {
      var own := ParagraphGroups(table, p);
      var brk: seq<seq<Note>> := if last then [] else [[]];
      ParagraphGroupsShape(table, p);
      NoBreakInParagraphGroups(table, own);
      BreakCountAppend(own, brk);
      if !last {
        assert brk[1..] == [];
      }
    }
  }

  lemma {:induction false} ParagraphsBreakCount(table: map<char, Pitch>, ps: seq<string>)
    ensures BreakCount(ParagraphsGroups(table, ps)) == BreaksFor(ps)
  {
    if ps != [] {
      ParagraphsBreakCount(table, ps[1..]);
      ParagraphStepBreaks(table, ps[0], |ps| == 1);
      BreakCountAppend(ParagraphStep(table, ps[0], |ps| == 1), ParagraphsGroups(table, ps[1..]));
    }
  }

  /** Only breaks are empty, and there is exactly one break per non-blank
      paragraph that is not the last piece of `text.split('\n\n')`. */
  lemma InputBreakCount(table: map<char, Pitch>, text: string)
    ensures BreakCount(InputGroups(table, text)) == BreaksFor(SplitBlankLines(text))
  {
    ParagraphsBreakCount(table, SplitBlankLines(text));
  }

  /** One step of the paragraph loop. */
  lemma ParagraphsGroupsCons(table: map<char, Pitch>, p: string, rest: seq<string>)
    requires rest != []
    ensures ParagraphsGroups(table, [p] + rest)
            == (if Strip(p) == [] then [] else ParagraphGroups(table, p) + [[]]) + ParagraphsGroups(table, rest)
  {
    assert ([p] + rest)[0] == p && ([p] + rest)[1..] == rest;
  }

  /** A non-blank paragraph followed by a blank line: its groups, then a break,
      then the groups of the rest of the text; a blank paragraph adds nothing. */
  lemma ParagraphThenRest(table: map<char, Pitch>, p: string, rest: string)
    requires NoBlankLine(p) && (p == [] || p[|p| - 1] != '\n')
    ensures InputGroups(table, p + "\n\n" + rest)
            == (if Strip(p) == [] then [] else ParagraphGroups(table, p) + [[]]) + InputGroups(table, rest)
  {
    SplitBlankLinesAppend(p, rest);
    ParagraphsGroupsCons(table, p, SplitBlankLines(rest));
  }

  /** Text without a blank line is one paragraph, with no break after it. */
  lemma LastParagraph(table: map<char, Pitch>, p: string)
    requires NoBlankLine(p)
    ensures InputGroups(table, p) == if Strip(p) == [] then [] else ParagraphGroups(table, p)
  {
    SplitBlankLinesOfPiece(p);
    assert ParagraphsGroups(table, [p]) == ParagraphStep(table, p, true) + ParagraphsGroups(table, [p][1..]);
    assert [p][1..] == [];
  }

  /** Two non-blank paragraphs: the first's groups, a break, the second's groups. */
  lemma TwoParagraphs(table: map<char, Pitch>, p1: string, p2: string)
    requires p1 != [] && NoBlankLine(p1) && p1[|p1| - 1] != '\n' && Strip(p1) != []
    requires NoBlankLine(p2) && Strip(p2) != []
    ensures InputGroups(table, p1 + "\n\n" + p2) == ParagraphGroups(table, p1) + [[]] + ParagraphGroups(table, p2)
  {
    ParagraphThenRest(table, p1, p2);
    LastParagraph(table, p2);
  }

  /** A blank line at the very end still yields a break after the last non-blank
      paragraph: the empty piece after it counts as a paragraph. */
  lemma TrailingBreak(table: map<char, Pitch>, p: string)
    requires p != [] && NoBlankLine(p) && p[|p| - 1] != '\n' && Strip(p) != []
    ensures InputGroups(table, p + "\n\n") == ParagraphGroups(table, p) + [[]]
  {
    ParagraphThenRest(table, p, []);
    assert p + "\n\n" + [] == p + "\n\n";
    LastParagraph(table, []);
    assert Strip([]) == [];
  }

  /** A blank paragraph adds nothing, not even a break. */
  lemma BlankParagraphSkipped(table: map<char, Pitch>, b: string, rest: string)
    requires IsBlank(b) && NoBlankLine(b) && (b == [] || b[|b| - 1] != '\n')
    ensures InputGroups(table, b + "\n\n" + rest) == InputGroups(table, rest)
  {
    ParagraphThenRest(table, b, rest);
  }

  /** A paragraph whose characters are all unmapped keys (no whitespace, pipe or
      bracket) yields no group. */
  lemma UnmappedParagraph(table: map<char, Pitch>, p: string)
    requires p != [] && HasNoSpace(p) && '|' !in p && '[' !in p && MappedKeys(table, p) == []
    ensures ParagraphGroups(table, p) == []
  {
    WithoutBrackets(table, p);
    assert ' ' !in p by {
      assert IsSpace(' ');
    }
    CharNotesAreMappedKeys(table, p, Quick, 0);
  }

  /** Text without whitespace holds no blank line and does not end in a newline. */
  lemma NoSpaceParagraph(p: string)
    requires HasNoSpace(p)
    ensures NoBlankLine(p) && (p == [] || p[|p| - 1] != '\n')
  {
    assert IsSpace('\n');
    forall i
      ensures !BlankLineAt(p, i)
    {
      if 0 <= i < |p| {
        assert !IsSpace(p[i]);
      }
    }
    if p != [] {
      assert !IsSpace(p[|p| - 1]);
    }
  }

  /** ... and yet, when it is not the last paragraph, it is followed by a break. */
  lemma UnmappedParagraphBreak(table: map<char, Pitch>, p: string, rest: string)
    requires p != [] && HasNoSpace(p) && '|' !in p && '[' !in p && MappedKeys(table, p) == []
    ensures InputGroups(table, p + "\n\n" + rest) == [[]] + InputGroups(table, rest)
  {
    UnmappedParagraph(table, p);
    NoSpaceParagraph(p);
    ParagraphThenRest(table, p, rest);
  }
}
