/** The fixed key-to-pitch table of the keyboard: three octave tiers, each
    split into white (natural) and black (sharp) keys, combined into one map. */
module KeyTable {

  import Text

  /** A pitch descriptor: note name (letter, optionally followed by '#') and octave. */
  datatype Pitch = Pitch(name: string, octave: int)

  /** Lower octave (C2 to B3), white keys. */
  const LowerWhiteKeys: map<char, Pitch> := map[
    '1' := Pitch("C", 2), '2' := Pitch("D", 2), '3' := Pitch("E", 2), '4' := Pitch("F", 2),
    '5' := Pitch("G", 2), '6' := Pitch("A", 2), '7' := Pitch("B", 2), '8' := Pitch("C", 3),
    '9' := Pitch("D", 3), '0' := Pitch("E", 3), 'q' := Pitch("F", 3), 'w' := Pitch("G", 3),
    'e' := Pitch("A", 3), 'r' := Pitch("B", 3)]

  /** Lower octave, black keys. */
  const LowerBlackKeys: map<char, Pitch> := map[
    '!' := Pitch("C#", 2), '@' := Pitch("D#", 2), '$' := Pitch("F#", 2), '%' := Pitch("G#", 2),
    '^' := Pitch("A#", 2), '*' := Pitch("C#", 3), '(' := Pitch("D#", 3), 'Q' := Pitch("F#", 3),
    'W' := Pitch("G#", 3), 'E' := Pitch("A#", 3)]

  /** Middle octave (C4 to D5), white keys. */
  const MiddleWhiteKeys: map<char, Pitch> := map[
    't' := Pitch("C", 4), 'y' := Pitch("D", 4), 'u' := Pitch("E", 4), 'i' := Pitch("F", 4),
    'o' := Pitch("G", 4), 'p' := Pitch("A", 4), 'a' := Pitch("B", 4), 's' := Pitch("C", 5),
    'd' := Pitch("D", 5)]

  /** Middle octave, black keys. */
  const MiddleBlackKeys: map<char, Pitch> := map[
    'T' := Pitch("C#", 4), 'Y' := Pitch("D#", 4), 'I' := Pitch("F#", 4), 'O' := Pitch("G#", 4),
    'P' := Pitch("A#", 4), 'S' := Pitch("C#", 5), 'D' := Pitch("D#", 5)]

  /** Upper octave (E5 to C7), white keys. */
  const UpperWhiteKeys: map<char, Pitch> := map[
    'f' := Pitch("E", 5), 'g' := Pitch("F", 5), 'h' := Pitch("G", 5), 'j' := Pitch("A", 5),
    'k' := Pitch("B", 5), 'l' := Pitch("C", 6), 'z' := Pitch("D", 6), 'x' := Pitch("E", 6),
    'c' := Pitch("F", 6), 'v' := Pitch("G", 6), 'b' := Pitch("A", 6), 'n' := Pitch("B", 6),
    'm' := Pitch("C", 7)]

  /** Upper octave, black keys. */
  const UpperBlackKeys: map<char, Pitch> := map[
    'G' := Pitch("F#", 5), 'H' := Pitch("G#", 5), 'J' := Pitch("A#", 5), 'L' := Pitch("C#", 6),
    'Z' := Pitch("D#", 6), 'C' := Pitch("F#", 6), 'B' := Pitch("A#", 6)]

  /** `key_to_note`: an empty dict updated with each sub-table in turn. Dafny's
      map `+` keeps the right operand's entry on a clash, as `dict.update` does. */
  function KeyToNote(): map<char, Pitch> {
    map[] + LowerWhiteKeys + LowerBlackKeys + MiddleWhiteKeys + MiddleBlackKeys
      + UpperWhiteKeys + UpperBlackKeys
  }

  /** The lower white keys, as the key-mapping reference lists them. */
  const LowerWhiteKeySet: set<char> := {'1', '2', '3', '4', '5', '6', '7', '8', '9', '0', 'q', 'w', 'e', 'r'}

  lemma LowerWhiteKeySetSize()
    ensures |LowerWhiteKeySet| == 14
  {
  }

  lemma LowerWhiteKeysDomain()
    ensures LowerWhiteKeys.Keys == LowerWhiteKeySet
  {
  }

  /** The lower black keys, as the key-mapping reference lists them. */
  const LowerBlackKeySet: set<char> := {'!', '@', '$', '%', '^', '*', '(', 'Q', 'W', 'E'}

  lemma LowerBlackKeySetSize()
    ensures |LowerBlackKeySet| == 10
  {
  }

  lemma LowerBlackKeysDomain()
    ensures LowerBlackKeys.Keys == LowerBlackKeySet
  {
  }

  /** The middle white keys, as the key-mapping reference lists them. */
  const MiddleWhiteKeySet: set<char> := {'t', 'y', 'u', 'i', 'o', 'p', 'a', 's', 'd'}

  lemma MiddleWhiteKeySetSize()
    ensures |MiddleWhiteKeySet| == 9
  {
  }

  lemma MiddleWhiteKeysDomain()
    ensures MiddleWhiteKeys.Keys == MiddleWhiteKeySet
  {
  }

  /** The middle black keys, as the key-mapping reference lists them. */
  const MiddleBlackKeySet: set<char> := {'T', 'Y', 'I', 'O', 'P', 'S', 'D'}

  lemma MiddleBlackKeySetSize()
    ensures |MiddleBlackKeySet| == 7
  {
  }

  lemma MiddleBlackKeysDomain()
    ensures MiddleBlackKeys.Keys == MiddleBlackKeySet
  {
  }

  /** The upper white keys, as the key-mapping reference lists them. */
  const UpperWhiteKeySet: set<char> := {'f', 'g', 'h', 'j', 'k', 'l', 'z', 'x', 'c', 'v', 'b', 'n', 'm'}

  lemma UpperWhiteKeySetSize()
    ensures |UpperWhiteKeySet| == 13
  {
  }

  lemma UpperWhiteKeysDomain()
    ensures UpperWhiteKeys.Keys == UpperWhiteKeySet
  {
  }

  /** The upper black keys, as the key-mapping reference lists them. */
  const UpperBlackKeySet: set<char> := {'G', 'H', 'J', 'L', 'Z', 'C', 'B'}

  lemma UpperBlackKeySetSize()
    ensures |UpperBlackKeySet| == 7
  {
  }

  lemma UpperBlackKeysDomain()
    ensures UpperBlackKeys.Keys == UpperBlackKeySet
  {
  }

  lemma LowerWhiteKeysLowerBlackKeysDisjoint()
    ensures LowerWhiteKeySet !! LowerBlackKeySet
  {
  }

  lemma LowerWhiteKeysMiddleWhiteKeysDisjoint()
    ensures LowerWhiteKeySet !! MiddleWhiteKeySet
  {
  }

  lemma LowerWhiteKeysMiddleBlackKeysDisjoint()
    ensures LowerWhiteKeySet !! MiddleBlackKeySet
  {
  }

  lemma LowerWhiteKeysUpperWhiteKeysDisjoint()
    ensures LowerWhiteKeySet !! UpperWhiteKeySet
  {
  }

  lemma LowerWhiteKeysUpperBlackKeysDisjoint()
    ensures LowerWhiteKeySet !! UpperBlackKeySet
  {
  }

  lemma LowerBlackKeysMiddleWhiteKeysDisjoint()
    ensures LowerBlackKeySet !! MiddleWhiteKeySet
  {
  }

  lemma LowerBlackKeysMiddleBlackKeysDisjoint()
    ensures LowerBlackKeySet !! MiddleBlackKeySet
  {
  }

  lemma LowerBlackKeysUpperWhiteKeysDisjoint()
    ensures LowerBlackKeySet !! UpperWhiteKeySet
  {
  }

  lemma LowerBlackKeysUpperBlackKeysDisjoint()
    ensures LowerBlackKeySet !! UpperBlackKeySet
  {
  }

  lemma MiddleWhiteKeysMiddleBlackKeysDisjoint()
    ensures MiddleWhiteKeySet !! MiddleBlackKeySet
  {
  }

  lemma MiddleWhiteKeysUpperWhiteKeysDisjoint()
    ensures MiddleWhiteKeySet !! UpperWhiteKeySet
  {
  }

  lemma MiddleWhiteKeysUpperBlackKeysDisjoint()
    ensures MiddleWhiteKeySet !! UpperBlackKeySet
  {
  }

  lemma MiddleBlackKeysUpperWhiteKeysDisjoint()
    ensures MiddleBlackKeySet !! UpperWhiteKeySet
  {
  }

  lemma MiddleBlackKeysUpperBlackKeysDisjoint()
    ensures MiddleBlackKeySet !! UpperBlackKeySet
  {
  }

  lemma UpperWhiteKeysUpperBlackKeysDisjoint()
    ensures UpperWhiteKeySet !! UpperBlackKeySet
  {
  }

  /** No two sub-tables share a key, so the order of the updates does not matter. */
  lemma SubTablesDisjoint()
    ensures LowerWhiteKeys.Keys !! LowerBlackKeys.Keys && LowerWhiteKeys.Keys !! MiddleWhiteKeys.Keys
    ensures LowerWhiteKeys.Keys !! MiddleBlackKeys.Keys && LowerWhiteKeys.Keys !! UpperWhiteKeys.Keys
    ensures LowerWhiteKeys.Keys !! UpperBlackKeys.Keys
    ensures LowerBlackKeys.Keys !! MiddleWhiteKeys.Keys && LowerBlackKeys.Keys !! MiddleBlackKeys.Keys
    ensures LowerBlackKeys.Keys !! UpperWhiteKeys.Keys && LowerBlackKeys.Keys !! UpperBlackKeys.Keys
    ensures MiddleWhiteKeys.Keys !! MiddleBlackKeys.Keys && MiddleWhiteKeys.Keys !! UpperWhiteKeys.Keys
    ensures MiddleWhiteKeys.Keys !! UpperBlackKeys.Keys
    ensures MiddleBlackKeys.Keys !! UpperWhiteKeys.Keys && MiddleBlackKeys.Keys !! UpperBlackKeys.Keys
    ensures UpperWhiteKeys.Keys !! UpperBlackKeys.Keys
  {
    LowerWhiteKeysDomain(); LowerBlackKeysDomain(); MiddleWhiteKeysDomain();
    MiddleBlackKeysDomain(); UpperWhiteKeysDomain(); UpperBlackKeysDomain();
    LowerWhiteKeysLowerBlackKeysDisjoint(); LowerWhiteKeysMiddleWhiteKeysDisjoint(); LowerWhiteKeysMiddleBlackKeysDisjoint();
    LowerWhiteKeysUpperWhiteKeysDisjoint(); LowerWhiteKeysUpperBlackKeysDisjoint(); LowerBlackKeysMiddleWhiteKeysDisjoint();
    LowerBlackKeysMiddleBlackKeysDisjoint(); LowerBlackKeysUpperWhiteKeysDisjoint(); LowerBlackKeysUpperBlackKeysDisjoint();
    MiddleWhiteKeysMiddleBlackKeysDisjoint(); MiddleWhiteKeysUpperWhiteKeysDisjoint(); MiddleWhiteKeysUpperBlackKeysDisjoint();
    MiddleBlackKeysUpperWhiteKeysDisjoint(); MiddleBlackKeysUpperBlackKeysDisjoint(); UpperWhiteKeysUpperBlackKeysDisjoint();
  }

  /** Every entry of every sub-table survives the merge unchanged, and the merged
      table has no other keys: no later update overrides an earlier one. */
  lemma KeyToNoteIsUnion()
    ensures KeyToNote().Keys == LowerWhiteKeys.Keys + LowerBlackKeys.Keys + MiddleWhiteKeys.Keys
                                + MiddleBlackKeys.Keys + UpperWhiteKeys.Keys + UpperBlackKeys.Keys
    ensures forall k :: k in LowerWhiteKeys ==> KeyToNote()[k] == LowerWhiteKeys[k]
    ensures forall k :: k in LowerBlackKeys ==> KeyToNote()[k] == LowerBlackKeys[k]
    ensures forall k :: k in MiddleWhiteKeys ==> KeyToNote()[k] == MiddleWhiteKeys[k]
    ensures forall k :: k in MiddleBlackKeys ==> KeyToNote()[k] == MiddleBlackKeys[k]
    ensures forall k :: k in UpperWhiteKeys ==> KeyToNote()[k] == UpperWhiteKeys[k]
    ensures forall k :: k in UpperBlackKeys ==> KeyToNote()[k] == UpperBlackKeys[k]
  {
    SubTablesDisjoint();
    DisjointMerge(LowerWhiteKeys, LowerBlackKeys, MiddleWhiteKeys, MiddleBlackKeys, UpperWhiteKeys, UpperBlackKeys);
  }

  /** Updating an empty map with six maps whose keys are pairwise disjoint keeps
      every entry of each of them. */
  lemma DisjointMerge(a: map<char, Pitch>, b: map<char, Pitch>, c: map<char, Pitch>,
                      d: map<char, Pitch>, e: map<char, Pitch>, f: map<char, Pitch>)
    requires a.Keys !! b.Keys && a.Keys !! c.Keys && a.Keys !! d.Keys && a.Keys !! e.Keys && a.Keys !! f.Keys
    requires b.Keys !! c.Keys && b.Keys !! d.Keys && b.Keys !! e.Keys && b.Keys !! f.Keys
    requires c.Keys !! d.Keys && c.Keys !! e.Keys && c.Keys !! f.Keys
    requires d.Keys !! e.Keys && d.Keys !! f.Keys && e.Keys !! f.Keys
    ensures (map[] + a + b + c + d + e + f).Keys == a.Keys + b.Keys + c.Keys + d.Keys + e.Keys + f.Keys
    ensures forall k :: k in a ==> (map[] + a + b + c + d + e + f)[k] == a[k]
    ensures forall k :: k in b ==> (map[] + a + b + c + d + e + f)[k] == b[k]
    ensures forall k :: k in c ==> (map[] + a + b + c + d + e + f)[k] == c[k]
    ensures forall k :: k in d ==> (map[] + a + b + c + d + e + f)[k] == d[k]
    ensures forall k :: k in e ==> (map[] + a + b + c + d + e + f)[k] == e[k]
    ensures forall k :: k in f ==> (map[] + a + b + c + d + e + f)[k] == f[k]
  {
  }

  /** A natural: one letter from A to G. */
  predicate IsNatural(name: string) {
    |name| == 1 && name[0] in "ABCDEFG"
  }

  /** A sharp: a letter from A to G followed by '#'. */
  predicate IsSharp(name: string) {
    |name| == 2 && name[0] in "ABCDEFG" && name[1] == '#'
  }

  /** A character the parser treats as structure rather than as a key. */
  predicate IsSeparator(c: char) {
    Text.IsSpace(c) || c == '|' || c == '[' || c == ']'
  }

  /** The lower white sub-table names naturals in octaves 2 to 3. */
  lemma LowerWhiteKeysPitches()
    ensures forall k :: k in LowerWhiteKeys ==> IsNatural(LowerWhiteKeys[k].name) && 2 <= LowerWhiteKeys[k].octave <= 3
  {
    LowerWhiteKeysDomain();
  }

  /** No lower white key is a separator. */
  lemma LowerWhiteKeysNotSeparators()
    ensures forall k :: k in LowerWhiteKeySet ==> !IsSeparator(k)
  {
  }

  /** The lower black sub-table names sharps in octaves 2 to 3. */
  lemma LowerBlackKeysPitches()
    ensures forall k :: k in LowerBlackKeys ==> IsSharp(LowerBlackKeys[k].name) && 2 <= LowerBlackKeys[k].octave <= 3
  {
    LowerBlackKeysDomain();
  }

  /** No lower black key is a separator. */
  lemma LowerBlackKeysNotSeparators()
    ensures forall k :: k in LowerBlackKeySet ==> !IsSeparator(k)
  {
  }

  /** The middle white sub-table names naturals in octaves 4 to 5. */
  lemma MiddleWhiteKeysPitches()
    ensures forall k :: k in MiddleWhiteKeys ==> IsNatural(MiddleWhiteKeys[k].name) && 4 <= MiddleWhiteKeys[k].octave <= 5
  {
    MiddleWhiteKeysDomain();
  }

  /** No middle white key is a separator. */
  lemma MiddleWhiteKeysNotSeparators()
    ensures forall k :: k in MiddleWhiteKeySet ==> !IsSeparator(k)
  {
  }

  /** The middle black sub-table names sharps in octaves 4 to 5. */
  lemma MiddleBlackKeysPitches()
    ensures forall k :: k in MiddleBlackKeys ==> IsSharp(MiddleBlackKeys[k].name) && 4 <= MiddleBlackKeys[k].octave <= 5
  {
    MiddleBlackKeysDomain();
  }

  /** No middle black key is a separator. */
  lemma MiddleBlackKeysNotSeparators()
    ensures forall k :: k in MiddleBlackKeySet ==> !IsSeparator(k)
  {
  }

  /** The upper white sub-table names naturals in octaves 5 to 7. */
  lemma UpperWhiteKeysPitches()
    ensures forall k :: k in UpperWhiteKeys ==> IsNatural(UpperWhiteKeys[k].name) && 5 <= UpperWhiteKeys[k].octave <= 7
  {
    UpperWhiteKeysDomain();
  }

  /** No upper white key is a separator. */
  lemma UpperWhiteKeysNotSeparators()
    ensures forall k :: k in UpperWhiteKeySet ==> !IsSeparator(k)
  {
  }

  /** The upper black sub-table names sharps in octaves 5 to 7. */
  lemma UpperBlackKeysPitches()
    ensures forall k :: k in UpperBlackKeys ==> IsSharp(UpperBlackKeys[k].name) && 5 <= UpperBlackKeys[k].octave <= 7
  {
    UpperBlackKeysDomain();
  }

  /** No upper black key is a separator. */
  lemma UpperBlackKeysNotSeparators()
    ensures forall k :: k in UpperBlackKeySet ==> !IsSeparator(k)
  {
  }

  /** What every entry of the table satisfies: the name is a natural or a sharp
      (so never "PAUSE", the name of a pause marker), the octave lies between 2
      and 7, and the key is not a separator. */
  predicate IsEntry(k: char, p: Pitch) {
    (IsNatural(p.name) || IsSharp(p.name)) && 2 <= p.octave <= 7 && !IsSeparator(k)
  }

  lemma LowerWhiteKeysEntries()
    ensures forall k :: k in LowerWhiteKeys ==> IsEntry(k, LowerWhiteKeys[k])
  {
    LowerWhiteKeysPitches();
    LowerWhiteKeysDomain();
    LowerWhiteKeysNotSeparators();
  }

  lemma LowerBlackKeysEntries()
    ensures forall k :: k in LowerBlackKeys ==> IsEntry(k, LowerBlackKeys[k])
  {
    LowerBlackKeysPitches();
    LowerBlackKeysDomain();
    LowerBlackKeysNotSeparators();
  }

  lemma MiddleWhiteKeysEntries()
    ensures forall k :: k in MiddleWhiteKeys ==> IsEntry(k, MiddleWhiteKeys[k])
  {
    MiddleWhiteKeysPitches();
    MiddleWhiteKeysDomain();
    MiddleWhiteKeysNotSeparators();
  }

  lemma MiddleBlackKeysEntries()
    ensures forall k :: k in MiddleBlackKeys ==> IsEntry(k, MiddleBlackKeys[k])
  {
    MiddleBlackKeysPitches();
    MiddleBlackKeysDomain();
    MiddleBlackKeysNotSeparators();
  }

  lemma UpperWhiteKeysEntries()
    ensures forall k :: k in UpperWhiteKeys ==> IsEntry(k, UpperWhiteKeys[k])
  {
    UpperWhiteKeysPitches();
    UpperWhiteKeysDomain();
    UpperWhiteKeysNotSeparators();
  }

  lemma UpperBlackKeysEntries()
    ensures forall k :: k in UpperBlackKeys ==> IsEntry(k, UpperBlackKeys[k])
  {
    UpperBlackKeysPitches();
    UpperBlackKeysDomain();
    UpperBlackKeysNotSeparators();
  }

  /** A key table in which every entry satisfies `IsEntry`. */
  ghost predicate IsKeyTable(t: map<char, Pitch>) {
    forall k :: k in t ==> IsEntry(k, t[k])
  }

  /** The combined table is such a key table. */
  lemma KeyToNoteEntries()
    ensures IsKeyTable(KeyToNote())
  {
    SubTablesDisjoint();
    LowerWhiteKeysEntries(); LowerBlackKeysEntries(); MiddleWhiteKeysEntries();
    MiddleBlackKeysEntries(); UpperWhiteKeysEntries(); UpperBlackKeysEntries();
    MergeEntries(LowerWhiteKeys, LowerBlackKeys, MiddleWhiteKeys, MiddleBlackKeys, UpperWhiteKeys, UpperBlackKeys);
  }

  /** Updating an empty map with six maps whose entries all satisfy `IsEntry`
      gives a map whose entries all satisfy it. */
  lemma MergeEntries(a: map<char, Pitch>, b: map<char, Pitch>, c: map<char, Pitch>,
                     d: map<char, Pitch>, e: map<char, Pitch>, f: map<char, Pitch>)
    requires forall k :: k in a ==> IsEntry(k, a[k])
    requires forall k :: k in b ==> IsEntry(k, b[k])
    requires forall k :: k in c ==> IsEntry(k, c[k])
    requires forall k :: k in d ==> IsEntry(k, d[k])
    requires forall k :: k in e ==> IsEntry(k, e[k])
    requires forall k :: k in f ==> IsEntry(k, f[k])
    ensures forall k :: k in map[] + a + b + c + d + e + f ==> IsEntry(k, (map[] + a + b + c + d + e + f)[k])
  {
  }

  /** The combined table has sixty keys. */
  lemma KeyCount()
    ensures |KeyToNote()| == 60
  {
    KeyToNoteIsUnion();
    LowerWhiteKeysDomain(); LowerBlackKeysDomain(); MiddleWhiteKeysDomain();
    MiddleBlackKeysDomain(); UpperWhiteKeysDomain(); UpperBlackKeysDomain();
    LowerWhiteKeysLowerBlackKeysDisjoint(); LowerWhiteKeysMiddleWhiteKeysDisjoint();
    LowerWhiteKeysMiddleBlackKeysDisjoint(); LowerWhiteKeysUpperWhiteKeysDisjoint();
    LowerWhiteKeysUpperBlackKeysDisjoint(); LowerBlackKeysMiddleWhiteKeysDisjoint();
    LowerBlackKeysMiddleBlackKeysDisjoint(); LowerBlackKeysUpperWhiteKeysDisjoint();
    LowerBlackKeysUpperBlackKeysDisjoint(); MiddleWhiteKeysMiddleBlackKeysDisjoint();
    MiddleWhiteKeysUpperWhiteKeysDisjoint(); MiddleWhiteKeysUpperBlackKeysDisjoint();
    MiddleBlackKeysUpperWhiteKeysDisjoint(); MiddleBlackKeysUpperBlackKeysDisjoint();
    UpperWhiteKeysUpperBlackKeysDisjoint();
    LowerWhiteKeySetSize(); LowerBlackKeySetSize(); MiddleWhiteKeySetSize();
    MiddleBlackKeySetSize(); UpperWhiteKeySetSize(); UpperBlackKeySetSize();
    DisjointUnionSize(LowerWhiteKeySet, LowerBlackKeySet, MiddleWhiteKeySet, MiddleBlackKeySet,
                      UpperWhiteKeySet, UpperBlackKeySet);
  }

  /** The union of six pairwise disjoint sets is as large as their sizes together. */
  lemma DisjointUnionSize(a: set<char>, b: set<char>, c: set<char>, d: set<char>, e: set<char>, f: set<char>)
    requires a !! b && a !! c && a !! d && a !! e && a !! f
    requires b !! c && b !! d && b !! e && b !! f
    requires c !! d && c !! e && c !! f && d !! e && d !! f && e !! f
    ensures |a + b + c + d + e + f| == |a| + |b| + |c| + |d| + |e| + |f|
  {
    assert a * b == {};
    assert (a + b) * c == {};
    assert (a + b + c) * d == {};
    assert (a + b + c + d) * e == {};
    assert (a + b + c + d + e) * f == {};
  }
}
