/** Pause markers: splitting a paragraph on runs of '|' as `re.split(r'(\|+)')`
    does, classifying each run by the whitespace around it, and what the
    paragraph parser (`_parse_paragraph`) returns. */
module Pauses {

  import opened Text
  import opened KeyTable
  import opened Notes
  import opened Brackets

  /** The number of leading '|' characters of `s`. */
  function PipeRun(s: string): (n: nat)
    ensures n <= |s|
    ensures s != [] && s[0] == '|' ==> n > 0
  {
    if s != [] && s[0] == '|' then PipeRun(s[1..]) + 1 else 0
  }

  /** The run is maximal and made of '|' only. */
  lemma {:induction false} PipeRunIsPipes(s: string)
    requires s != [] && s[0] == '|'
    ensures IsPipes(s[..PipeRun(s)])
    ensures PipeRun(s) < |s| ==> s[PipeRun(s)] != '|'
  {
    var t := s[1..];
    if t != [] && t[0] == '|' {
      PipeRunIsPipes(t);
      assert s[..PipeRun(s)] == [s[0]] + t[..PipeRun(t)];
    }
  }

  /** The number of leading characters of `s` before its first '|'. */
  function TextRun(s: string): (n: nat)
    ensures n <= |s|
    ensures n < |s| ==> s[n] == '|'
  {
    if s != [] && s[0] != '|' then TextRun(s[1..]) + 1 else 0
  }

  /** The text before the first '|' holds no '|'. */
  lemma {:induction false} TextRunNoPipe(s: string)
    ensures NoPipe(s[..TextRun(s)])
  {
    if s != [] && s[0] != '|' {
      TextRunNoPipe(s[1..]);
      assert s[..TextRun(s)] == [s[0]] + s[1..][..TextRun(s[1..])];
    }
  }

  /** A non-empty run of '|'. */
  predicate IsPipes(s: string) {
    s != [] && forall i :: 0 <= i < |s| ==> s[i] == '|'
  }

  /** `re.split(r'(\|+)', s)`: the text between pipe runs at even positions,
      each maximal run of '|' (the captured group) at odd positions. */
  function PipeSplit(s: string): (parts: seq<string>)
    ensures |parts| % 2 == 1
    decreases |s|
  {
    var n := TextRun(s);
    if n == |s| then [s]
    else
      var t := s[n..];
      assert t[0] == '|';
      var m := PipeRun(t);
      [s[..n], t[..m]] + PipeSplit(t[m..])
  }

  /** The split loses nothing: the parts put back together give `s`. */
  lemma {:induction false} PipeSplitJoin(s: string)
    ensures Concat(PipeSplit(s)) == s
    decreases |s|
  {
    var n := TextRun(s);
    if n == |s| {
      assert PipeSplit(s) == [s];
      ConcatCons(s, []);
    } else {
      var t := s[n..];
      var m := PipeRun(t);
      PipeSplitUnfold(s);
      PipeSplitJoin(t[m..]);
      ConcatCons2(s[..n], t[..m], PipeSplit(t[m..]));
      Rejoin(s, n, m);
    }
  }

  lemma Rejoin(s: string, n: nat, m: nat)
    requires n <= |s| && m <= |s| - n
    ensures s == s[..n] + (s[n..][..m] + s[n..][m..])
  {
    assert s[n..] == s[n..][..m] + s[n..][m..];
  }

  lemma ConcatCons2(a: string, b: string, rest: seq<string>)
    ensures Concat([a, b] + rest) == a + (b + Concat(rest))
  {
    assert ([a, b] + rest)[1..] == [b] + rest;
    assert ([b] + rest)[1..] == rest;
  }

  /** No '|' in `s`. */
  predicate NoPipe(s: string) {
    forall j :: 0 <= j < |s| ==> s[j] != '|'
  }

  /** Part `k` of a pipe split: an odd part is a run of '|', an even part holds
      no '|', and only the first and the last part can be empty. */
  predicate PartOk(parts: seq<string>, k: nat)
    requires k < |parts|
  {
    if k % 2 == 1 then IsPipes(parts[k])
    else NoPipe(parts[k]) && (0 < k < |parts| - 1 ==> parts[k] != [])
  }

  predicate PipeShape(parts: seq<string>) {
    forall k :: 0 <= k < |parts| ==> PartOk(parts, k)
  }

  lemma {:induction false} PipeSplitShape(s: string)
    ensures PipeShape(PipeSplit(s))
    decreases |s|
  {
    var n := TextRun(s);
    if n == |s| {
      assert s[..n] == s;
      TextRunNoPipe(s);
      assert PartOk([s], 0);
    } else {
      var t := s[n..];
      var m := PipeRun(t);
      var u := t[m..];
      PipeSplitShape(u);
      TextRunNoPipe(s);
      PipeRunIsPipes(t);
      if |PipeSplit(u)| > 1 {
        assert u != [] && u[0] != '|';
      }
      PipeShapeCons(s[..n], t[..m], PipeSplit(u));
      PipeSplitUnfold(s);
    }
  }

  lemma PipeSplitUnfold(s: string)
    requires TextRun(s) < |s|
    ensures var t := s[TextRun(s)..]; PipeSplit(s) == [s[..TextRun(s)], t[..PipeRun(t)]] + PipeSplit(t[PipeRun(t)..])
  {
  }

  lemma PipeShapeCons(a: string, b: string, rest: seq<string>)
    requires NoPipe(a) && IsPipes(b) && PipeShape(rest) && rest != []
    requires |rest| > 1 ==> rest[0] != []
    ensures PipeShape([a, b] + rest)
  {
    var parts := [a, b] + rest;
    forall k | 0 <= k < |parts|
      ensures PartOk(parts, k)
    {
      if k >= 2 {
        assert parts[k] == rest[k - 2];
        assert PartOk(rest, k - 2);
      }
    }
  }

  /** The pause a run of `pipeCount` pipes gets, from the whitespace before
      (`prevSpace`) and after (`nextSpace`) it; the first rule that applies wins. */
  function PauseLength(pipeCount: nat, prevSpace: nat, nextSpace: nat): Duration {
    if pipeCount > 1 || (prevSpace > 0 && nextSpace > 0) then Longest
    else if prevSpace > 0 || nextSpace > 0 then
      (if prevSpace + nextSpace > 1 then Longer else Long)
    else Short
  }

  /** The four pause lengths, ordered from shortest to longest. */
  function PauseRank(d: Duration): nat {
    match d
    case Short => 0
    case Long => 1
    case Longer => 2
    case Longest => 3
    case _ => 0
  }

  /** Each pause length, stated by the condition that yields it. */
  lemma PauseLengthCases(pipeCount: nat, prevSpace: nat, nextSpace: nat)
    ensures var d := PauseLength(pipeCount, prevSpace, nextSpace);
      (d == Short <==> pipeCount <= 1 && prevSpace == 0 && nextSpace == 0)
      && (d == Long <==> pipeCount <= 1 && prevSpace + nextSpace == 1)
      && (d == Longer <==> pipeCount <= 1 && (prevSpace == 0 || nextSpace == 0) && prevSpace + nextSpace > 1)
      && (d == Longest <==> pipeCount > 1 || (prevSpace > 0 && nextSpace > 0))
  {
  }

  /** More pipes or more whitespace never shortens a pause. */
  lemma PauseLengthMonotone(p1: nat, a1: nat, b1: nat, p2: nat, a2: nat, b2: nat)
    requires p1 <= p2 && a1 <= a2 && b1 <= b2
    ensures PauseRank(PauseLength(p1, a1, b1)) <= PauseRank(PauseLength(p2, a2, b2))
  {
  }

  /** A pause marker note. */
  function PauseNote(d: Duration): Note {
    Note("|", "PAUSE", 0, d, 0)
  }

  /** A group made of one pause marker with one of the four pause lengths. */
  predicate IsPauseGroup(g: seq<Note>) {
    |g| == 1 && IsPauseLength(g[0].duration) && g[0] == PauseNote(g[0].duration)
  }

  /** One of the four pause lengths. */
  predicate IsPauseLength(d: Duration) {
    d.Short? || d.Long? || d.Longer? || d.Longest?
  }

  /** What the loop of `_parse_paragraph` does with one part: skip it, emit a
      pause, or parse it as a text part. */
  datatype Piece = Skip | PauseRun(pipes: nat, prevSpace: nat, nextSpace: nat) | TextPart(text: string)

  /** How `parts[i]` is classified: a blank part is skipped, a part starting with
      '|' is a run of pipes with the trailing whitespace of the part before it and
      the leading whitespace of the part after it, and any other part is a text
      part, stripped. */
  function PieceOf(parts: seq<string>, i: nat): Piece
    requires i < |parts|
  {
    var part := parts[i];
    if part == [] || Strip(part) == [] then Skip
    else if part[0] == '|' then
      PauseRun(|part|, if i > 0 then TrailingSpaces(parts[i - 1]) else 0,
               if i < |parts| - 1 then LeadingSpaces(parts[i + 1]) else 0)
    else TextPart(Strip(part))
  }

  /** The groups one piece adds. */
  function PieceGroups(table: map<char, Pitch>, p: Piece): seq<seq<Note>> {
    match p
    case Skip => []
    case PauseRun(pipes, prevSpace, nextSpace) => [[PauseNote(PauseLength(pipes, prevSpace, nextSpace))]]
    case TextPart(text) => TextPartGroups(table, text)
  }

  /** The pieces of all parts, in order. */
  function Pieces(parts: seq<string>): (ps: seq<Piece>)
    ensures |ps| == |parts|
  {
    seq(|parts|, k requires 0 <= k < |parts| => PieceOf(parts, k))
  }

  /** The groups of a sequence of pieces, in order. */
  function PiecesGroups(table: map<char, Pitch>, ps: seq<Piece>): seq<seq<Note>> {
    if ps == [] then [] else PieceGroups(table, ps[0]) + PiecesGroups(table, ps[1..])
  }

  /** One step of the loop over the parts. */
  lemma PiecesGroupsStep(table: map<char, Pitch>, parts: seq<string>, i: nat)
    requires i < |parts|
    ensures PiecesGroups(table, Pieces(parts)[i..])
            == PieceGroups(table, PieceOf(parts, i)) + PiecesGroups(table, Pieces(parts)[i + 1..])
  {
    var rest := Pieces(parts)[i..];
    assert rest[0] == PieceOf(parts, i) && rest[1..] == Pieces(parts)[i + 1..];
  }

  /** What `_parse_paragraph(text)` returns: without '|' the whole paragraph is
      one text part (not stripped); otherwise the parts of the pipe split. */
  function ParagraphGroups(table: map<char, Pitch>, text: string): seq<seq<Note>> {
    if '|' !in text then TextPartGroups(table, text)
    else PiecesGroups(table, Pieces(PipeSplit(text)))
  }

  /** A pause group or a text group. */
  ghost predicate IsParagraphGroup(table: map<char, Pitch>, g: seq<Note>) {
    IsPauseGroup(g) || IsTextGroup(table, g)
  }

  ghost predicate AllParagraphGroups(table: map<char, Pitch>, gs: seq<seq<Note>>) {
    forall k :: 0 <= k < |gs| ==> IsParagraphGroup(table, gs[k])
  }

  lemma AllParagraphGroupsAppend(table: map<char, Pitch>, a: seq<seq<Note>>, b: seq<seq<Note>>)
    requires AllParagraphGroups(table, a) && AllParagraphGroups(table, b)
    ensures AllParagraphGroups(table, a + b)
  {
    assert forall k :: |a| <= k < |a + b| ==> (a + b)[k] == b[k - |a|];
  }

  lemma PieceGroupsShape(table: map<char, Pitch>, p: Piece)
    ensures AllParagraphGroups(table, PieceGroups(table, p))
  {
    if p.TextPart? {
      TextPartGroupsAreTextGroups(table, p.text);
    }
  }

  lemma {:induction false} PiecesGroupsShape(table: map<char, Pitch>, ps: seq<Piece>)
    ensures AllParagraphGroups(table, PiecesGroups(table, ps))
  {
    if ps != [] {
      PieceGroupsShape(table, ps[0]);
      PiecesGroupsShape(table, ps[1..]);
      AllParagraphGroupsAppend(table, PieceGroups(table, ps[0]), PiecesGroups(table, ps[1..]));
    }
  }

  /** Every group of a paragraph is a single pause marker or a non-empty, uniformly
      tagged group of notes from the table; in particular none is empty. */
  lemma ParagraphGroupsShape(table: map<char, Pitch>, text: string)
    ensures AllParagraphGroups(table, ParagraphGroups(table, text))
  {
    if '|' !in text {
      TextPartGroupsAreTextGroups(table, text);
    } else {
      PiecesGroupsShape(table, Pieces(PipeSplit(text)));
    }
  }

  /** The number of pause groups in `gs`. */
  function PauseCount(gs: seq<seq<Note>>): nat {
    if gs == [] then 0 else (if IsPauseGroup(gs[0]) then 1 else 0) + PauseCount(gs[1..])
  }

  lemma {:induction false} PauseCountAppend(a: seq<seq<Note>>, b: seq<seq<Note>>)
    ensures PauseCount(a + b) == PauseCount(a) + PauseCount(b)
  {
    if a == [] {
      assert a + b == b;
    } else {
      assert (a + b)[1..] == a[1..] + b;
      PauseCountAppend(a[1..], b);
    }
  }

  /** No text group is a pause group: their notes carry other duration labels. */
  lemma {:induction false} TextGroupsHaveNoPause(table: map<char, Pitch>, gs: seq<seq<Note>>)
    requires AllTextGroups(table, gs)
    ensures PauseCount(gs) == 0
  {
    if gs != [] {
      assert IsTextGroup(table, gs[0]);
      assert !IsPauseLength(gs[0][0].duration);
      assert !IsPauseGroup(gs[0]);
      assert forall k :: 0 <= k < |gs[1..]| ==> gs[1..][k] == gs[k + 1];
      TextGroupsHaveNoPause(table, gs[1..]);
    }
  }

  /** A pipe run yields one pause group, any other piece none. */
  lemma PieceGroupsPauseCount(table: map<char, Pitch>, p: Piece)
    ensures PauseCount(PieceGroups(table, p)) == if p.PauseRun? then 1 else 0
  {
    var g := PieceGroups(table, p);
    if p.PauseRun? {
      assert IsPauseGroup(g[0]);
      assert g[1..] == [];
    } else if p.TextPart? {
      TextPartGroupsAreTextGroups(table, p.text);
      TextGroupsHaveNoPause(table, g);
    }
  }

  /** The pipe runs of a pipe split, and only they, are pause pieces. */
  lemma PieceOfShape(parts: seq<string>, i: nat)
    requires PipeShape(parts) && i < |parts|
    ensures PieceOf(parts, i).PauseRun? <==> i % 2 == 1
  {
    var part := parts[i];
    assert PartOk(parts, i);
    if i % 2 == 1 {
      assert part[0] == '|';
      assert Strip(part) != [] by { assert !IsSpace(part[0]); }
    } else if part != [] {
      assert part[0] != '|';
    }
  }

  /** The number of pause pieces in `ps`. */
  function PauseRuns(ps: seq<Piece>): nat {
    if ps == [] then 0 else (if ps[0].PauseRun? then 1 else 0) + PauseRuns(ps[1..])
  }

  lemma {:induction false} PiecesPauseCount(table: map<char, Pitch>, ps: seq<Piece>)
    ensures PauseCount(PiecesGroups(table, ps)) == PauseRuns(ps)
  {
    if ps != [] {
      PiecesPauseCount(table, ps[1..]);
      PieceGroupsPauseCount(table, ps[0]);
      PauseCountAppend(PieceGroups(table, ps[0]), PiecesGroups(table, ps[1..]));
    }
  }

  /** Pieces that alternate text, pause, text, ... hold `|ps| / 2` pauses. */
  lemma {:induction false} PauseRunsOdd(ps: seq<Piece>)
    requires |ps| % 2 == 1
    requires forall k :: 0 <= k < |ps| ==> (ps[k].PauseRun? <==> k % 2 == 1)
    ensures PauseRuns(ps) == |ps| / 2
  {
    assert !ps[0].PauseRun?;
    if |ps| > 1 {
      var rest := ps[2..];
      assert ps[1].PauseRun?;
      assert forall k :: 0 <= k < |rest| ==> rest[k] == ps[k + 2];
      PauseRunsOdd(rest);
      assert ps[1..][1..] == rest;
    } else {
      assert ps[1..] == [];
    }
  }

  /** In a pipe split, the pause pieces are exactly those at odd positions. */
  lemma PiecesOfShape(parts: seq<string>)
    requires PipeShape(parts)
    ensures forall k :: 0 <= k < |Pieces(parts)| ==> (Pieces(parts)[k].PauseRun? <==> k % 2 == 1)
  {
    forall k | 0 <= k < |parts|
      ensures Pieces(parts)[k].PauseRun? <==> k % 2 == 1
    {
      PieceOfShape(parts, k);
    }
  }

  /** A paragraph with pipes has exactly one pause group per pipe run. */
  lemma PauseCountIsRunCount(table: map<char, Pitch>, text: string)
    requires '|' in text
    ensures PauseCount(ParagraphGroups(table, text)) == |PipeSplit(text)| / 2
  {
    PipeSplitShape(text);
    SplitPauseCount(table, PipeSplit(text));
  }

  /** Part `k` of the pipe split in its place: a pipe run (odd `k`) adds exactly one
      pause note, of the length given by the run and the whitespace of its two
      neighbours; a text part (even `k`) adds only note groups. */
  ghost predicate PieceInPlace(table: map<char, Pitch>, parts: seq<string>, k: int) {
    0 <= k < |parts| ==>
      (k % 2 == 1 ==>
         0 < k < |parts| - 1 &&
         PieceGroups(table, PieceOf(parts, k))
         == [[PauseNote(PauseLength(|parts[k]|, TrailingSpaces(parts[k - 1]), LeadingSpaces(parts[k + 1])))]])
      && (k % 2 == 0 ==> AllTextGroups(table, PieceGroups(table, PieceOf(parts, k))))
  }

  /** Every part of the split of a paragraph adds what `PieceInPlace` says; the
      paragraph's groups are these, concatenated in the order of the parts. */
  lemma PiecesInPlace(table: map<char, Pitch>, text: string)
    ensures forall k :: PieceInPlace(table, PipeSplit(text), k)
  {
    var parts := PipeSplit(text);
    PipeSplitShape(text);
    forall k
      ensures PieceInPlace(table, parts, k)
    {
      if 0 <= k < |parts| {
        assert PartOk(parts, k);
        if k % 2 == 1 {
          PausePieceGroups(parts, k, table);
        } else {
          PieceOfShape(parts, k);
          if PieceOf(parts, k).TextPart? {
            TextPartGroupsAreTextGroups(table, PieceOf(parts, k).text);
          }
        }
      }
    }
  }

  lemma SplitPauseCount(table: map<char, Pitch>, parts: seq<string>)
    requires PipeShape(parts) && |parts| % 2 == 1
    ensures PauseCount(PiecesGroups(table, Pieces(parts))) == |parts| / 2
  {
    SplitPauseRuns(parts);
    PiecesPauseCount(table, Pieces(parts));
  }

  lemma SplitPauseRuns(parts: seq<string>)
    requires PipeShape(parts) && |parts| % 2 == 1
    ensures PauseRuns(Pieces(parts)) == |parts| / 2
  {
    PiecesOfShape(parts);
    PauseRunsOdd(Pieces(parts));
  }

  /** The text before a run of pipes is one part. */
  lemma {:induction false} TextRunAppend(x: string, rest: string)
    requires NoPipe(x) && (rest == [] || rest[0] == '|')
    ensures TextRun(x + rest) == |x|
  {
    if x != [] {
      assert (x + rest)[1..] == x[1..] + rest;
      TextRunAppend(x[1..], rest);
    } else {
      assert x + rest == rest;
    }
  }

  /** A run of pipes followed by anything else is one part. */
  lemma {:induction false} PipeRunAppend(p: string, rest: string)
    requires IsPipes(p) && (rest == [] || rest[0] != '|')
    ensures PipeRun(p + rest) == |p|
  {
    assert (p + rest)[1..] == p[1..] + rest;
    if |p| > 1 {
      PipeRunAppend(p[1..], rest);
    } else {
      assert p[1..] + rest == rest;
    }
  }

  /** The split of text, pipes and the remainder. */
  lemma PipeSplitCons(x: string, p: string, rest: string)
    requires NoPipe(x) && IsPipes(p) && (rest == [] || rest[0] != '|')
    ensures PipeSplit(x + p + rest) == [x, p] + PipeSplit(rest)
  {
    var s := x + p + rest;
    TextRunAppend(x, p + rest);
    assert s == x + (p + rest);
    assert s[..|x|] == x && s[|x|..] == p + rest;
    PipeRunAppend(p, rest);
    assert (p + rest)[..|p|] == p && (p + rest)[|p|..] == rest;
  }

  lemma PipeSplitOfText(y: string)
    requires NoPipe(y)
    ensures PipeSplit(y) == [y]
  {
    TextRunAppend(y, []);
    assert y + [] == y;
  }

  /** A text part adds nothing when it is blank. */
  lemma TextPartGroupsOfBlank(table: map<char, Pitch>)
    ensures TextPartGroups(table, []) == []
  {
    var tokens: seq<string> := [[]];
    assert BracketSplit([]) == tokens;
    assert tokens[1..] == [];
    var found := FindAll([]);
    assert TokenGroups(table, tokens[0], IsBracketed(tokens[0], [], found)) == [];
    assert TokensGroups(table, tokens[1..], [], found) == [];
    assert TokensGroups(table, tokens, [], found) == [];
  }

  /** The groups a text part between pipe runs adds: its stripped text's. */
  lemma TextPieceGroups(table: map<char, Pitch>, parts: seq<string>, i: nat)
    requires i < |parts| && NoPipe(parts[i])
    ensures PieceGroups(table, PieceOf(parts, i)) == TextPartGroups(table, Strip(parts[i]))
  {
    var part := parts[i];
    if part == [] || Strip(part) == [] {
      TextPartGroupsOfBlank(table);
    } else {
      assert part[0] != '|';
    }
  }

  /** The pause a pipe run between two parts adds. */
  lemma PausePieceGroups(parts: seq<string>, i: nat, table: map<char, Pitch>)
    requires 0 < i < |parts| - 1 && IsPipes(parts[i])
    ensures PieceGroups(table, PieceOf(parts, i))
            == [[PauseNote(PauseLength(|parts[i]|, TrailingSpaces(parts[i - 1]), LeadingSpaces(parts[i + 1])))]]
  {
    var part := parts[i];
    assert part[0] == '|' && !IsSpace(part[0]);
  }

  lemma PiecesGroupsCons(table: map<char, Pitch>, ps: seq<Piece>)
    requires ps != []
    ensures PiecesGroups(table, ps) == PieceGroups(table, ps[0]) + PiecesGroups(table, ps[1..])
  {
  }

  lemma SplitOne(x: string, p: string, y: string)
    requires NoPipe(x) && IsPipes(p) && NoPipe(y)
    ensures '|' in x + p + y
    ensures PipeSplit(x + p + y) == [x, p, y]
  {
    assert (x + p + y)[|x|] == '|';
    PipeSplitOfText(y);
    if y != [] {
      assert y[0] != '|';
    }
    PipeSplitCons(x, p, y);
  }

  lemma ThreePieces(table: map<char, Pitch>, parts: seq<string>)
    requires |parts| == 3 && NoPipe(parts[0]) && IsPipes(parts[1]) && NoPipe(parts[2])
    ensures PiecesGroups(table, Pieces(parts))
            == TextPartGroups(table, Strip(parts[0]))
               + ([[PauseNote(PauseLength(|parts[1]|, TrailingSpaces(parts[0]), LeadingSpaces(parts[2])))]]
               + TextPartGroups(table, Strip(parts[2])))
  {
    TextPieceGroups(table, parts, 0);
    PausePieceGroups(parts, 1, table);
    TextPieceGroups(table, parts, 2);
    PiecesGroupsThree(table, Pieces(parts));
  }

  lemma PiecesGroupsThree(table: map<char, Pitch>, ps: seq<Piece>)
    requires |ps| == 3
    ensures PiecesGroups(table, ps) == PieceGroups(table, ps[0]) + (PieceGroups(table, ps[1]) + PieceGroups(table, ps[2]))
  {
    PiecesGroupsCons(table, ps);
    PiecesGroupsCons(table, ps[1..]);
    PiecesGroupsCons(table, ps[1..][1..]);
    assert ps[1..][1..][1..] == [];
  }

  /** Text, a run of pipes, text: the groups of the stripped text before, one pause
      whose length comes from the run and the whitespace touching it, then the
      groups of the stripped text after. */
  lemma OnePause(table: map<char, Pitch>, x: string, p: string, y: string)
    requires NoPipe(x) && IsPipes(p) && NoPipe(y)
    ensures ParagraphGroups(table, x + p + y)
            == TextPartGroups(table, Strip(x))
               + ([[PauseNote(PauseLength(|p|, TrailingSpaces(x), LeadingSpaces(y)))]]
               + TextPartGroups(table, Strip(y)))
  {
    SplitOne(x, p, y);
    ThreePieces(table, [x, p, y]);
  }

  lemma SplitTwo(x: string, p1: string, w: string, p2: string, y: string)
    requires NoPipe(x) && IsPipes(p1) && NoPipe(w) && w != [] && IsPipes(p2) && NoPipe(y)
    ensures '|' in x + p1 + w + p2 + y
    ensures PipeSplit(x + p1 + w + p2 + y) == [x, p1, w, p2, y]
  {
    SplitOne(w, p2, y);
    SplitConsOne(x, p1, w, p2 + y);
    AppendFive(x, p1, w, p2, y);
  }

  lemma AppendFive(x: string, p1: string, w: string, p2: string, y: string)
    ensures x + p1 + w + p2 + y == x + p1 + (w + (p2 + y))
    ensures w + p2 + y == w + (p2 + y)
  {
  }

  lemma SplitConsOne(x: string, p: string, w: string, tail: string)
    requires NoPipe(x) && IsPipes(p) && w != [] && NoPipe(w)
    ensures '|' in x + p + (w + tail)
    ensures PipeSplit(x + p + (w + tail)) == [x, p] + PipeSplit(w + tail)
  {
    var rest := w + tail;
    assert rest[0] == w[0];
    assert (x + p + rest)[|x|] == '|';
    PipeSplitCons(x, p, rest);
  }

  lemma PiecesGroupsFive(table: map<char, Pitch>, ps: seq<Piece>)
    requires |ps| == 5
    ensures PiecesGroups(table, ps)
            == PieceGroups(table, ps[0]) + (PieceGroups(table, ps[1]) + (PieceGroups(table, ps[2])
               + (PieceGroups(table, ps[3]) + PieceGroups(table, ps[4]))))
  {
    PiecesGroupsCons(table, ps);
    PiecesGroupsCons(table, ps[1..]);
    PiecesGroupsThree(table, ps[2..]);
    assert ps[1..][1..] == ps[2..];
  }

  lemma FivePieces(table: map<char, Pitch>, parts: seq<string>)
    requires |parts| == 5 && NoPipe(parts[0]) && IsPipes(parts[1]) && NoPipe(parts[2])
    requires IsPipes(parts[3]) && NoPipe(parts[4])
    ensures PiecesGroups(table, Pieces(parts))
            == TextPartGroups(table, Strip(parts[0]))
               + ([[PauseNote(PauseLength(|parts[1]|, TrailingSpaces(parts[0]), LeadingSpaces(parts[2])))]]
               + (TextPartGroups(table, Strip(parts[2]))
               + ([[PauseNote(PauseLength(|parts[3]|, TrailingSpaces(parts[2]), LeadingSpaces(parts[4])))]]
               + TextPartGroups(table, Strip(parts[4])))))
  {
    TextPieceGroups(table, parts, 0);
    PausePieceGroups(parts, 1, table);
    TextPieceGroups(table, parts, 2);
    PausePieceGroups(parts, 3, table);
    TextPieceGroups(table, parts, 4);
    PiecesGroupsFive(table, Pieces(parts));
  }

  /** Two pipe runs with text `w` between them: each gets its own pause, the
      whitespace of `w` counting for both. */
  lemma TwoPauses(table: map<char, Pitch>, x: string, p1: string, w: string, p2: string, y: string)
    requires NoPipe(x) && IsPipes(p1) && NoPipe(w) && w != [] && IsPipes(p2) && NoPipe(y)
    ensures ParagraphGroups(table, x + p1 + w + p2 + y)
            == TextPartGroups(table, Strip(x))
               + ([[PauseNote(PauseLength(|p1|, TrailingSpaces(x), LeadingSpaces(w)))]]
               + (TextPartGroups(table, Strip(w))
               + ([[PauseNote(PauseLength(|p2|, TrailingSpaces(w), LeadingSpaces(y)))]]
               + TextPartGroups(table, Strip(y)))))
  {
    SplitTwo(x, p1, w, p2, y);
    var parts := PipeSplit(x + p1 + w + p2 + y);
    assert parts[0] == x && parts[1] == p1 && parts[2] == w && parts[3] == p2 && parts[4] == y;
    FivePieces(table, parts);
  }

  /** A word: no whitespace, no pipe, not empty. */
  predicate IsWord(w: string) {
    w != [] && HasNoSpace(w) && NoPipe(w)
  }

  lemma NoPipeAppend(a: string, b: string)
    requires NoPipe(a) && NoPipe(b)
    ensures NoPipe(a + b)
  {
    assert forall j :: |a| <= j < |a + b| ==> (a + b)[j] == b[j - |a|];
  }

  /** `as|df`: a single pipe touching both words is a short pause. */
  lemma TightPipe(table: map<char, Pitch>, w1: string, p: string, w2: string)
    requires IsWord(w1) && IsPipes(p) && |p| == 1 && IsWord(w2)
    ensures ParagraphGroups(table, w1 + p + w2)
            == TextPartGroups(table, w1) + ([[PauseNote(Short)]] + TextPartGroups(table, w2))
  {
    OnePause(table, w1, p, w2);
    WordEnds(w1);
    WordEnds(w2);
  }

  /** `as| df`: one whitespace character on one side makes a single pipe a long pause. */
  lemma PipeThenSpace(table: map<char, Pitch>, w1: string, p: string, sp: string, w2: string)
    requires IsWord(w1) && IsPipes(p) && |p| == 1 && IsBlank(sp) && |sp| == 1 && IsWord(w2)
    ensures ParagraphGroups(table, w1 + p + (sp + w2))
            == TextPartGroups(table, w1) + ([[PauseNote(Long)]] + TextPartGroups(table, w2))
  {
    BlankNoPipe(sp);
    NoPipeAppend(sp, w2);
    OnePause(table, w1, p, sp + w2);
    WordEnds(w1);
    SpacesBeforeWord(sp, w2);
  }

  /** `as  |df`: two or more whitespace characters on one side make a single pipe a
      longer pause. */
  lemma SpacesThenPipe(table: map<char, Pitch>, w1: string, sp: string, p: string, w2: string)
    requires IsWord(w1) && IsBlank(sp) && |sp| >= 2 && IsPipes(p) && |p| == 1 && IsWord(w2)
    ensures ParagraphGroups(table, w1 + sp + p + w2)
            == TextPartGroups(table, w1) + ([[PauseNote(Longer)]] + TextPartGroups(table, w2))
  {
    BlankNoPipe(sp);
    NoPipeAppend(w1, sp);
    OnePause(table, w1 + sp, p, w2);
    SpacesAfterWord(w1, sp);
    WordEnds(w2);
  }

  /** `as|  df`: the mirror case, two or more whitespace characters after a single
      pipe and none before, is a longer pause too. */
  lemma PipeThenSpaces(table: map<char, Pitch>, w1: string, p: string, sp: string, w2: string)
    requires IsWord(w1) && IsPipes(p) && |p| == 1 && IsBlank(sp) && |sp| >= 2 && IsWord(w2)
    ensures ParagraphGroups(table, w1 + p + (sp + w2))
            == TextPartGroups(table, w1) + ([[PauseNote(Longer)]] + TextPartGroups(table, w2))
  {
    BlankNoPipe(sp);
    NoPipeAppend(sp, w2);
    OnePause(table, w1, p, sp + w2);
    WordEnds(w1);
    SpacesBeforeWord(sp, w2);
  }

  /** `as | df`: whitespace on both sides makes the longest pause (the docstring
      of `parse_input` calls this one "longer"). */
  lemma SpacedPipe(table: map<char, Pitch>, w1: string, sp1: string, p: string, sp2: string, w2: string)
    requires IsWord(w1) && IsBlank(sp1) && sp1 != [] && IsPipes(p) && IsBlank(sp2) && sp2 != [] && IsWord(w2)
    ensures ParagraphGroups(table, w1 + sp1 + p + (sp2 + w2))
            == TextPartGroups(table, w1) + ([[PauseNote(Longest)]] + TextPartGroups(table, w2))
  {
    BlankNoPipe(sp1);
    BlankNoPipe(sp2);
    NoPipeAppend(w1, sp1);
    NoPipeAppend(sp2, w2);
    OnePause(table, w1 + sp1, p, sp2 + w2);
    SpacesAfterWord(w1, sp1);
    SpacesBeforeWord(sp2, w2);
  }

  /** `as||df`: a run of two or more pipes is the longest pause, whatever the
      whitespace around it. */
  lemma DoublePipe(table: map<char, Pitch>, x: string, p: string, y: string)
    requires NoPipe(x) && IsPipes(p) && |p| > 1 && NoPipe(y)
    ensures ParagraphGroups(table, x + p + y)
            == TextPartGroups(table, Strip(x)) + ([[PauseNote(Longest)]] + TextPartGroups(table, Strip(y)))
  {
    OnePause(table, x, p, y);
  }

  lemma BlankNoPipe(sp: string)
    requires IsBlank(sp)
    ensures NoPipe(sp)
  {
    assert forall j :: 0 <= j < |sp| ==> IsSpace(sp[j]);
  }

  /** Two single pipes with only whitespace between them: two pauses, and the
      whitespace counts for both. */
  lemma PipeBlankPipe(table: map<char, Pitch>, x: string, p1: string, sp: string, p2: string, y: string)
    requires NoPipe(x) && IsPipes(p1) && |p1| == 1 && sp != [] && IsBlank(sp) && IsPipes(p2) && |p2| == 1 && NoPipe(y)
    ensures ParagraphGroups(table, x + p1 + sp + p2 + y)
            == TextPartGroups(table, Strip(x))
               + ([[PauseNote(PauseLength(1, TrailingSpaces(x), |sp|))]]
               + ([[PauseNote(PauseLength(1, |sp|, LeadingSpaces(y)))]]
               + TextPartGroups(table, Strip(y))))
  {
    BlankNoPipe(sp);
    TwoPauses(table, x, p1, sp, p2, y);
    BlankCounts(sp);
    TextPartGroupsOfBlank(table);
    var tail := [[PauseNote(PauseLength(1, |sp|, LeadingSpaces(y)))]] + TextPartGroups(table, Strip(y));
    assert TextPartGroups(table, Strip(sp)) + tail == tail;
  }

  /** `as| |df`: the whitespace splits the pipes into two runs, each a long pause
      (the docstring of `parse_input` describes one longest pause). */
  lemma PipeSpacePipe(table: map<char, Pitch>, w1: string, p1: string, sp: string, p2: string, w2: string)
    requires IsWord(w1) && IsPipes(p1) && |p1| == 1 && IsBlank(sp) && |sp| == 1
    requires IsPipes(p2) && |p2| == 1 && IsWord(w2)
    ensures ParagraphGroups(table, w1 + p1 + sp + p2 + w2)
            == TextPartGroups(table, w1) + ([[PauseNote(Long)]] + ([[PauseNote(Long)]] + TextPartGroups(table, w2)))
  {
    PipeBlankPipe(table, w1, p1, sp, p2, w2);
    WordEnds(w1);
    WordEnds(w2);
  }
}
