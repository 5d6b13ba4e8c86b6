/** The Python string operations the parser relies on, written out as scanners
    over characters: `str.isspace`, `strip`/`lstrip`/`rstrip`, `split()` without
    an argument, `split('\n\n')` and the substring test `a in b`. */
module Text {

  /** Python's `str.isspace()` for one character: the separators that `split()`,
      `strip()`, `lstrip()` and `rstrip()` remove when called without arguments. */
  predicate IsSpace(c: char) {
    ('\t' <= c <= '\r') || ('\U{1C}' <= c <= '\U{1F}') || c == ' ' || c == '\U{85}' || c == '\U{A0}'
    || c == '\U{1680}' || ('\U{2000}' <= c <= '\U{200A}') || c == '\U{2028}' || c == '\U{2029}'
    || c == '\U{202F}' || c == '\U{205F}' || c == '\U{3000}'
  }

  /** Every character of `s` is whitespace (the empty string included). */
  predicate IsBlank(s: string) {
    forall i :: 0 <= i < |s| ==> IsSpace(s[i])
  }

  /** No character of `s` is whitespace. */
  predicate HasNoSpace(s: string) {
    forall i :: 0 <= i < |s| ==> !IsSpace(s[i])
  }

  /** The number of leading whitespace characters of `s`. */
  function LeadingSpaces(s: string): (n: nat)
    ensures n <= |s| && IsBlank(s[..n])
    ensures n < |s| ==> !IsSpace(s[n])
  {
    if s != [] && IsSpace(s[0]) then
      var m := LeadingSpaces(s[1..]);
      assert s[..m + 1] == [s[0]] + s[1..][..m];
      m + 1
    else 0
  }

  /** The number of whitespace characters ending the prefix `s[..k]`. */
  function TrailingBefore(s: string, k: nat): (n: nat)
    requires k <= |s|
    ensures n <= k
    ensures forall i :: k - n <= i < k ==> IsSpace(s[i])
    ensures n < k ==> !IsSpace(s[k - n - 1])
  {
    if k > 0 && IsSpace(s[k - 1]) then TrailingBefore(s, k - 1) + 1 else 0
  }

  /** The number of trailing whitespace characters of `s`. */
  function TrailingSpaces(s: string): (n: nat)
    ensures n <= |s| && IsBlank(s[|s| - n..])
    ensures n < |s| ==> !IsSpace(s[|s| - n - 1])
  {
    TrailingBefore(s, |s|)
  }

  /** The trailing whitespace is determined by where the last non-whitespace
      character is. */
  lemma TrailingSpacesIs(s: string, n: nat)
    requires n <= |s| && (forall i :: |s| - n <= i < |s| ==> IsSpace(s[i]))
    requires n < |s| ==> !IsSpace(s[|s| - n - 1])
    ensures TrailingSpaces(s) == n
  {
    TrailingBeforeIs(s, |s|, n);
  }

  lemma {:induction false} TrailingBeforeIs(s: string, k: nat, n: nat)
    requires n <= k <= |s| && (forall i :: k - n <= i < k ==> IsSpace(s[i]))
    requires n < k ==> !IsSpace(s[k - n - 1])
    ensures TrailingBefore(s, k) == n
    decreases n
  {
    if n > 0 {
      assert IsSpace(s[k - 1]);
      TrailingBeforeIs(s, k - 1, n - 1);
    }
  }


  /** `s.lstrip()`: drop the leading whitespace; `len(s) - len(s.lstrip())` is
      `LeadingSpaces(s)`. */
  function LStrip(s: string): (r: string)
    ensures r == [] || !IsSpace(r[0])
  {
    s[LeadingSpaces(s)..]
  }

  /** `s.rstrip()`: drop the trailing whitespace; `len(s) - len(s.rstrip())` is
      `TrailingSpaces(s)`. */
  function RStrip(s: string): (r: string)
    ensures r == [] || !IsSpace(r[|r| - 1])
  {
    s[..|s| - TrailingSpaces(s)]
  }

  /** `LStrip` removes a blank prefix and nothing else. */
  lemma LStripRemovesBlankPrefix(s: string)
    ensures |LStrip(s)| <= |s|
    ensures s == s[..|s| - |LStrip(s)|] + LStrip(s) && IsBlank(s[..|s| - |LStrip(s)|])
  {
    assert s == s[..LeadingSpaces(s)] + s[LeadingSpaces(s)..];
  }

  /** `RStrip` removes a blank suffix and nothing else. */
  lemma RStripRemovesBlankSuffix(s: string)
    ensures |RStrip(s)| <= |s|
    ensures s == RStrip(s) + s[|RStrip(s)|..] && IsBlank(s[|RStrip(s)|..])
  {
    assert s == s[..|s| - TrailingSpaces(s)] + s[|s| - TrailingSpaces(s)..];
  }

  /** `s.strip()`: drop whitespace at both ends. */
  function Strip(s: string): (r: string)
    ensures r == [] <==> IsBlank(s)
    ensures r == [] || (!IsSpace(r[0]) && !IsSpace(r[|r| - 1]))
    ensures HasNoSpace(s) ==> r == s
  {
    var t := RStrip(s);
    var r := LStrip(t);
    assert s[0..] == s && t[..|t|] == t;
    assert HasNoSpace(s) ==> LeadingSpaces(t) == 0 && TrailingSpaces(s) == 0;
    assert r != [] ==> r[|r| - 1] == t[|t| - 1];
    r
  }

  /** The characters of `s` that are not whitespace, in order. */
  function NonSpace(s: string): (r: string)
    ensures |r| <= |s| && HasNoSpace(r)
  {
    if s == [] then [] else (if IsSpace(s[0]) then [] else [s[0]]) + NonSpace(s[1..])
  }

  lemma {:induction false} NonSpaceAppend(a: string, b: string)
    ensures NonSpace(a + b) == NonSpace(a) + NonSpace(b)
  {
    if a == [] {
      assert a + b == b;
    } else {
      assert (a + b)[1..] == a[1..] + b;
      NonSpaceAppend(a[1..], b);
    }
  }

  lemma {:induction false} NonSpaceOfBlank(s: string)
    requires IsBlank(s)
    ensures NonSpace(s) == []
  {
    if s != [] { NonSpaceOfBlank(s[1..]); }
  }

  lemma {:induction false} NonSpaceOfSpaceless(s: string)
    requires HasNoSpace(s)
    ensures NonSpace(s) == s
  {
    if s != [] { NonSpaceOfSpaceless(s[1..]); }
  }

  /** The length of the longest prefix of `s` without whitespace. */
  function WordLength(s: string): (n: nat)
    ensures n <= |s| && HasNoSpace(s[..n])
    ensures n == |s| || IsSpace(s[n])
  {
    if s == [] || IsSpace(s[0]) then 0
    else
      var m := WordLength(s[1..]);
      assert s[..m + 1] == [s[0]] + s[1..][..m];
      m + 1
  }

  /** Concatenation of a list of strings. */
  function Concat(ss: seq<string>): string {
    if ss == [] then [] else ss[0] + Concat(ss[1..])
  }

  lemma ConcatCons(a: string, rest: seq<string>)
    ensures Concat([a] + rest) == a + Concat(rest)
  {
    assert ([a] + rest)[1..] == rest;
  }

  /** `s.split()`: the maximal whitespace-free runs of `s`, in order. */
  function SplitWhitespace(s: string): (words: seq<string>)
    ensures forall k :: 0 <= k < |words| ==> words[k] != [] && HasNoSpace(words[k])
    decreases |s|
  {
    var t := s[LeadingSpaces(s)..];
    if t == [] then [] else
    var n := WordLength(t);
    assert n != 0 by { assert !IsSpace(t[0]); }
    [t[..n]] + SplitWhitespace(t[n..])
  }

  /** `s.split()` loses exactly the whitespace: the words put back together are
      the non-whitespace characters of `s` in their original order. */
  lemma {:induction false} SplitWhitespaceConcat(s: string)
    ensures Concat(SplitWhitespace(s)) == NonSpace(s)
    decreases |s|
  {
    var t := s[LeadingSpaces(s)..];
    NonSpaceSkip(s);
    if t != [] {
      var n := WordLength(t);
      assert SplitWhitespace(s) == [t[..n]] + SplitWhitespace(t[n..]);
      ConcatCons(t[..n], SplitWhitespace(t[n..]));
      NonSpaceWord(t);
      SplitWhitespaceConcat(t[n..]);
    } else {
      assert SplitWhitespace(s) == [];
    }
  }

  lemma NonSpaceSkip(s: string)
    ensures NonSpace(s) == NonSpace(s[LeadingSpaces(s)..])
  {
    var m := LeadingSpaces(s);
    assert s == s[..m] + s[m..];
    NonSpaceAppend(s[..m], s[m..]);
    NonSpaceOfBlank(s[..m]);
  }

  lemma NonSpaceWord(t: string)
    ensures NonSpace(t) == t[..WordLength(t)] + NonSpace(t[WordLength(t)..])
  {
    var n := WordLength(t);
    assert t == t[..n] + t[n..];
    NonSpaceAppend(t[..n], t[n..]);
    NonSpaceOfSpaceless(t[..n]);
  }

  /** A non-empty string without whitespace is one word. */
  lemma SplitWhitespaceOfWord(s: string)
    requires s != [] && HasNoSpace(s)
    ensures SplitWhitespace(s) == [s]
  {
    assert LeadingSpaces(s) == 0;
    WordLengthOfSpaceless(s);
    assert s[0..] == s && s[..|s|] == s && s[|s|..] == [];
  }

  /** Leading whitespace is skipped by `split()`. */
  lemma SplitWhitespaceSkip(c: char, s: string)
    requires IsSpace(c)
    ensures SplitWhitespace([c] + s) == SplitWhitespace(s)
  {
    var cs := [c] + s;
    assert cs[1..] == s;
    assert cs[LeadingSpaces(cs)..] == s[LeadingSpaces(s)..];
  }

  /** A word ended by whitespace or by the end of the string is the first word. */
  lemma SplitWhitespaceCons(w: string, rest: string)
    requires w != [] && HasNoSpace(w)
    requires rest == [] || IsSpace(rest[0])
    ensures SplitWhitespace(w + rest) == [w] + SplitWhitespace(rest)
  {
    var s := w + rest;
    assert LeadingSpaces(s) == 0;
    WordLengthAppend(w, rest);
    assert s[0..] == s && s[..|w|] == w && s[|w|..] == rest;
  }

  /** Two words separated by one space split into those two words. */
  lemma SplitWhitespaceTwoWords(w1: string, w2: string)
    requires w1 != [] && HasNoSpace(w1) && w2 != [] && HasNoSpace(w2)
    ensures SplitWhitespace(w1 + [' '] + w2) == [w1, w2]
  {
    assert w1 + [' '] + w2 == w1 + ([' '] + w2);
    SplitWhitespaceCons(w1, [' '] + w2);
    SplitWhitespaceSkip(' ', w2);
    SplitWhitespaceOfWord(w2);
  }

  lemma {:induction false} WordLengthAppend(w: string, rest: string)
    requires HasNoSpace(w)
    requires rest == [] || IsSpace(rest[0])
    ensures WordLength(w + rest) == |w|
  {
    if w == [] {
      assert w + rest == rest;
    } else {
      assert (w + rest)[1..] == w[1..] + rest;
      WordLengthAppend(w[1..], rest);
    }
  }

  lemma {:induction false} WordLengthOfSpaceless(s: string)
    requires HasNoSpace(s)
    ensures WordLength(s) == |s|
  {
    if s != [] { WordLengthOfSpaceless(s[1..]); }
  }

  /** `needle in hay` for two strings: `needle` is a prefix of `hay` or of one
      of its suffixes. */
  predicate IsSubstring(needle: string, hay: string) {
    needle <= hay || (hay != [] && IsSubstring(needle, hay[1..]))
  }

  /** Only a string no longer than `hay` can occur in it. */
  lemma {:induction false} SubstringLength(needle: string, hay: string)
    requires IsSubstring(needle, hay)
    ensures |needle| <= |hay|
  {
    if !(needle <= hay) {
      SubstringLength(needle, hay[1..]);
    }
  }

  /** `needle` occurs in `hay` starting at position `i`. */
  predicate OccursAt(needle: string, hay: string, i: int) {
    0 <= i && i + |needle| <= |hay| && hay[i..i + |needle|] == needle
  }

  /** An occurrence at the start is a prefix. */
  lemma OccursAtStart(needle: string, hay: string)
    ensures OccursAt(needle, hay, 0) <==> needle <= hay
  {
  }

  /** An occurrence at `i >= 1` is an occurrence at `i - 1` of the text without
      its first character. */
  lemma OccursShift(needle: string, hay: string, i: int)
    requires hay != [] && i >= 1
    ensures OccursAt(needle, hay, i) <==> OccursAt(needle, hay[1..], i - 1)
  {
    if i + |needle| <= |hay| {
      assert hay[1..][i - 1..i - 1 + |needle|] == hay[i..i + |needle|];
    }
  }

  /** `needle in hay` holds exactly when `needle` occurs at some position of `hay`. */
  lemma {:induction false} SubstringOccurs(needle: string, hay: string)
    ensures IsSubstring(needle, hay) <==> exists i :: OccursAt(needle, hay, i)
    decreases |hay|
  {
    OccursAtStart(needle, hay);
    if needle <= hay {
    } else if hay == [] {
      assert forall i :: !OccursAt(needle, hay, i);
    } else {
      SubstringOccurs(needle, hay[1..]);
      forall j | OccursAt(needle, hay[1..], j)
        ensures OccursAt(needle, hay, j + 1)
      {
        OccursShift(needle, hay, j + 1);
      }
      forall i | OccursAt(needle, hay, i)
        ensures OccursAt(needle, hay[1..], i - 1)
      {
        OccursShift(needle, hay, i);
      }
    }
  }

  /** A blank-line boundary "\n\n" starts at position `i` of `t`. */
  predicate BlankLineAt(t: string, i: int) {
    0 <= i && i + 1 < |t| && t[i] == '\n' && t[i + 1] == '\n'
  }

  /** `t` contains no blank-line boundary. */
  ghost predicate NoBlankLine(t: string) {
    forall i :: !BlankLineAt(t, i)
  }

  /** `"\n\n".join(ps)`. */
  function JoinBlankLines(ps: seq<string>): string
    requires |ps| >= 1
  {
    if |ps| == 1 then ps[0] else ps[0] + "\n\n" + JoinBlankLines(ps[1..])
  }

  /** The leftmost blank-line boundary at or after `i`, or `|s|` when there is none. */
  function FindBlankLine(s: string, i: nat): (j: nat)
    requires i <= |s|
    ensures i <= j <= |s|
    ensures forall k :: i <= k < j ==> !BlankLineAt(s, k)
    ensures j < |s| ==> BlankLineAt(s, j)
    decreases |s| - i
  {
    if i + 1 >= |s| then |s|
    else if s[i] == '\n' && s[i + 1] == '\n' then i
    else FindBlankLine(s, i + 1)
  }

  /** `s.split('\n\n')`: cut `s` at each leftmost non-overlapping "\n\n". */
  function SplitBlankLines(s: string): (ps: seq<string>)
    ensures |ps| >= 1
    decreases |s|
  {
    var j := FindBlankLine(s, 0);
    if j == |s| then [s] else [s[..j]] + SplitBlankLines(s[j + 2..])
  }

  /** The pieces of `s.split('\n\n')` joined with "\n\n" give back `s`. */
  lemma {:induction false} SplitBlankLinesJoin(s: string)
    ensures JoinBlankLines(SplitBlankLines(s)) == s
    decreases |s|
  {
    var j := FindBlankLine(s, 0);
    if j < |s| {
      var rest := SplitBlankLines(s[j + 2..]);
      SplitBlankLinesJoin(s[j + 2..]);
      assert ([s[..j]] + rest)[1..] == rest;
      assert s == s[..j] + "\n\n" + s[j + 2..];
    }
  }

  /** No piece of `s.split('\n\n')` contains "\n\n". */
  lemma {:induction false} SplitBlankLinesNoBlankLine(s: string)
    ensures forall k :: 0 <= k < |SplitBlankLines(s)| ==> NoBlankLine(SplitBlankLines(s)[k])
    decreases |s|
  {
    var j := FindBlankLine(s, 0);
    var first := s[..j];
    assert NoBlankLine(first) by {
      forall i ensures !BlankLineAt(first, i) {
        if BlankLineAt(first, i) { assert BlankLineAt(s, i); }
      }
    }
    if j < |s| {
      var rest := SplitBlankLines(s[j + 2..]);
      SplitBlankLinesNoBlankLine(s[j + 2..]);
      assert forall k :: 1 <= k < |rest| + 1 ==> ([first] + rest)[k] == rest[k - 1];
    }
  }

  /** No piece of `s.split('\n\n')` but the last ends with '\n': otherwise the
      cut would have been one character earlier. */
  lemma {:induction false} SplitBlankLinesEnds(s: string)
    ensures forall k :: 0 <= k < |SplitBlankLines(s)| - 1 ==>
              var p := SplitBlankLines(s)[k]; p == [] || p[|p| - 1] != '\n'
    decreases |s|
  {
    var j := FindBlankLine(s, 0);
    if j < |s| {
      var first := s[..j];
      if j > 0 {
        assert !BlankLineAt(s, j - 1);
        assert first[|first| - 1] == s[j - 1];
      }
      var rest := SplitBlankLines(s[j + 2..]);
      SplitBlankLinesEnds(s[j + 2..]);
      assert forall k :: 1 <= k < |rest| + 1 ==> ([first] + rest)[k] == rest[k - 1];
    }
  }

  /** Text without a blank line is one piece. */
  lemma SplitBlankLinesOfPiece(p: string)
    requires NoBlankLine(p)
    ensures SplitBlankLines(p) == [p]
  {
  }

  /** A piece without a blank line and not ending with '\n', then "\n\n": the
      first cut falls right after the piece. */
  lemma SplitBlankLinesAppend(p: string, rest: string)
    requires NoBlankLine(p) && (p == [] || p[|p| - 1] != '\n')
    ensures SplitBlankLines(p + "\n\n" + rest) == [p] + SplitBlankLines(rest)
  {
    var s := p + "\n\n" + rest;
    var j := FindBlankLine(s, 0);
    assert BlankLineAt(s, |p|);
    assert forall k :: 0 <= k < |p| ==> !BlankLineAt(s, k) by {
      forall k | 0 <= k < |p|
        ensures !BlankLineAt(s, k)
      {
        if k + 1 < |p| {
          assert s[k] == p[k] && s[k + 1] == p[k + 1];
          assert !BlankLineAt(p, k);
        } else {
          assert s[k] == p[|p| - 1];
        }
      }
    }
    assert j == |p|;
    assert s[..j] == p && s[j + 2..] == rest;
  }

  /** Whitespace after a word is all stripped and all counted by `rstrip`. */
  lemma SpacesAfterWord(w: string, sp: string)
    requires w != [] && HasNoSpace(w) && IsBlank(sp)
    ensures TrailingSpaces(w + sp) == |sp|
    ensures Strip(w + sp) == w
  {
    var s := w + sp;
    assert forall i :: |s| - |sp| <= i < |s| ==> s[i] == sp[i - |w|];
    assert s[|s| - |sp| - 1] == w[|w| - 1];
    TrailingSpacesIs(s, |sp|);
    assert RStrip(s) == w;
    assert LeadingSpaces(w) == 0;
    assert w[0..] == w;
  }

  /** Whitespace before a word is all stripped and all counted by `lstrip`. */
  lemma SpacesBeforeWord(sp: string, w: string)
    requires w != [] && HasNoSpace(w) && IsBlank(sp)
    ensures LeadingSpaces(sp + w) == |sp|
    ensures Strip(sp + w) == w
  {
    LeadingSpacesBeforeWord(sp, w);
    var s := sp + w;
    assert !IsSpace(s[|s| - 1]) by {
      assert s[|s| - 1] == w[|w| - 1];
    }
    assert TrailingBefore(s, |s|) == 0;
    assert RStrip(s) == s by {
      assert s[..|s|] == s;
    }
    assert LStrip(s) == w by {
      assert s[|sp|..] == w;
    }
  }

  lemma {:induction false} LeadingSpacesBeforeWord(sp: string, w: string)
    requires w != [] && HasNoSpace(w) && IsBlank(sp)
    ensures LeadingSpaces(sp + w) == |sp|
  {
    if sp != [] {
      assert (sp + w)[1..] == sp[1..] + w;
      LeadingSpacesBeforeWord(sp[1..], w);
    } else {
      assert sp + w == w;
    }
  }

  /** A word has no whitespace to strip at either end. */
  lemma WordEnds(w: string)
    requires w != [] && HasNoSpace(w)
    ensures LeadingSpaces(w) == 0 && TrailingSpaces(w) == 0
  {
  }

  /** Whitespace alone is stripped away entirely. */
  lemma BlankCounts(sp: string)
    requires IsBlank(sp)
    ensures LeadingSpaces(sp) == |sp| && TrailingSpaces(sp) == |sp| && Strip(sp) == []
  {
    TrailingSpacesIs(sp, |sp|);
    assert sp[..|sp|] == sp;
  }
}
