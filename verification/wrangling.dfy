/** Tag wrangling for Arcane pairings (ao3.py): the fandom disambiguation
    suffix of one character name, the last-name-first sort key, and the
    canonical relationship tag that is searched for. */
module Wrangling {
  import opened Wrappers
  import opened Words
  import opened StringOrder

  /** Characters whose canonical fandom is League of Legends itself. */
  const Champions: seq<string> :=
    ["Caitlyn", "Ekko", "Heimerdinger", "Jayce", "Jinx", "Singed", "Vi", "Viktor"]

  const LeagueSuffix: string := " (League of Legends)"
  const ArcaneSuffix: string := " (Arcane: League of Legends)"

  /** A name with a given and a family name needs no fandom disambiguation. */
  predicate MultiWord(name: string) {
    |Split(name)| > 1
  }

  /** `wrangle_fandom_tag`: the suffix that disambiguates a one-word name by
      fandom; names of more than one word get none. */
  function FandomTag(name: string): (r: string)
    ensures r in {"", LeagueSuffix, ArcaneSuffix}
    ensures r == "" <==> MultiWord(name)
    ensures r == LeagueSuffix <==> !MultiWord(name) && name in Champions
    ensures r == ArcaneSuffix <==> !MultiWord(name) && name !in Champions
  {
    if MultiWord(name) then ""
    else if name in Champions then LeagueSuffix
    else ArcaneSuffix
  }

  /** A one-word name is disambiguated by fandom: League of Legends exactly
      when it is listed, Arcane otherwise. */
  lemma OneWordFandomTag(name: string)
    requires IsWord(name)
    ensures FandomTag(name) == (if name in Champions then LeagueSuffix else ArcaneSuffix)
  {
    SplitWord(name);
  }

  /** Every listed champion is a one-word name and so carries the League suffix. */
  lemma ChampionsGetLeagueSuffix(name: string)
    requires name in Champions
    ensures IsWord(name) && FandomTag(name) == LeagueSuffix
  {
    ChampionsAreWords(name);
    OneWordFandomTag(name);
  }

  /** `reverse_names`: the words of the name in reverse order, joined by single
      spaces; used as the family-name-first sort key. */
  function ReverseNames(name: string): (r: string)
    ensures Split(r) == Reverse(Split(name))
    ensures NormalizedSpacing(r)
  {
    var ws := Reverse(Split(name));
    ReverseAllWords(Split(name));
    SplitJoin(ws);
    JoinNormalized(ws);
    Join(ws)
  }

  /** Reversing twice normalizes the spacing of the name. */
  lemma ReverseNamesTwice(name: string)
    ensures ReverseNames(ReverseNames(name)) == Join(Split(name))
  {
    ReverseReverse(Split(name));
  }

  /** On names with normalized spacing, reversing is an involution. */
  lemma ReverseNamesInvolution(name: string)
    requires NormalizedSpacing(name)
    ensures ReverseNames(ReverseNames(name)) == name
  {
    ReverseNamesTwice(name);
    NormalizedJoinSplit(name);
  }

  /** Distinct names with normalized spacing have distinct sort keys. */
  lemma ReverseNamesInjective(a: string, b: string)
    requires NormalizedSpacing(a) && NormalizedSpacing(b)
    requires ReverseNames(a) == ReverseNames(b)
    ensures a == b
  {
    ReverseNamesInvolution(a);
    ReverseNamesInvolution(b);
  }

  /** `sorted((a, b), key=reverse_names)`: a stable two-element sort by the
      family-name-first key, which swaps only when the second key is smaller. */
  function SortedPair(a: string, b: string): (p: (string, string))
    ensures p == (a, b) || p == (b, a)
    ensures LessEq(ReverseNames(p.0), ReverseNames(p.1))
    ensures ReverseNames(a) == ReverseNames(b) ==> p == (a, b)
  {
    NotLessIsLessEq(ReverseNames(a), ReverseNames(b));
    LessIrreflexive(ReverseNames(a));
    if Less(ReverseNames(b), ReverseNames(a)) then (b, a) else (a, b)
  }

  /** The suffixes kept on the first and second (already sorted) names. */
  function TagSuffixes(x: string, y: string): (s: (string, string))
    ensures s.0 in {"", LeagueSuffix, ArcaneSuffix}
    ensures s.1 in {"", LeagueSuffix, ArcaneSuffix}
    ensures MultiWord(x) || MultiWord(y) ==> s == ("", "")
    ensures !MultiWord(x) && !MultiWord(y) && x in Champions && y in Champions
      ==> s == ("", LeagueSuffix)
    ensures !MultiWord(x) && !MultiWord(y) && x !in Champions && y !in Champions
      ==> s == ("", ArcaneSuffix)
    ensures !MultiWord(x) && !MultiWord(y) && x in Champions && y !in Champions
      ==> s == (LeagueSuffix, ArcaneSuffix)
    ensures !MultiWord(x) && !MultiWord(y) && x !in Champions && y in Champions
      ==> s == (ArcaneSuffix, LeagueSuffix)
  {
    var f1 := FandomTag(x);
    var f2 := FandomTag(y);
    if f1 == "" || f2 == "" then ("", "")
    else if f1 == f2 then ("", f2)
    else (f1, f2)
  }

  /** `wrangle_relationship_tag`: names in family-name order separated by a
      slash; a multi-word name drops all disambiguation; two one-word names
      of the same fandom share one suffix at the end; two one-word names of
      different fandoms each keep their own. */
  function RelationshipTag(a: string, b: string): (t: string)
    ensures var p := SortedPair(a, b);
      MultiWord(p.0) || MultiWord(p.1) ==> t == p.0 + "/" + p.1
    ensures var p := SortedPair(a, b);
      !MultiWord(p.0) && !MultiWord(p.1) && p.0 in Champions && p.1 in Champions
      ==> t == p.0 + "/" + p.1 + LeagueSuffix
    ensures var p := SortedPair(a, b);
      !MultiWord(p.0) && !MultiWord(p.1) && p.0 !in Champions && p.1 !in Champions
      ==> t == p.0 + "/" + p.1 + ArcaneSuffix
    ensures var p := SortedPair(a, b);
      !MultiWord(p.0) && !MultiWord(p.1) && p.0 in Champions && p.1 !in Champions
      ==> t == p.0 + LeagueSuffix + "/" + p.1 + ArcaneSuffix
    ensures var p := SortedPair(a, b);
      !MultiWord(p.0) && !MultiWord(p.1) && p.0 !in Champions && p.1 in Champions
      ==> t == p.0 + ArcaneSuffix + "/" + p.1 + LeagueSuffix
  {
    var p := SortedPair(a, b);
    var x, y := p.0, p.1;
    var s := TagSuffixes(x, y);
    Render(x, s.0, y, s.1)
  }

  /** The tag text: each name followed by its kept suffix, slash between. */
  function Render(x: string, sx: string, y: string, sy: string): (t: string)
    ensures sx == "" && sy == "" ==> t == x + "/" + y
    ensures sx == "" ==> t == x + "/" + y + sy
  {
    x + sx + "/" + y + sy
  }

  /** Argument order does not matter when the names are equal or their sort
      keys differ. */
  lemma TagSymmetric(a: string, b: string)
    requires a == b || ReverseNames(a) != ReverseNames(b)
    ensures RelationshipTag(a, b) == RelationshipTag(b, a)
  {
    if a != b {
      LessTotal(ReverseNames(a), ReverseNames(b));
      LessAsymmetric(ReverseNames(a), ReverseNames(b));
    }
    assert SortedPair(a, b) == SortedPair(b, a);
  }

  /** Argument order does not matter for names with normalized spacing. */
  lemma TagSymmetricNormalized(a: string, b: string)
    requires NormalizedSpacing(a) && NormalizedSpacing(b)
    ensures RelationshipTag(a, b) == RelationshipTag(b, a)
  {
    if a != b && ReverseNames(a) == ReverseNames(b) {
      ReverseNamesInjective(a, b);
    }
    TagSymmetric(a, b);
  }

  /** Without normalized spacing, symmetry fails: a one-word name with a
      trailing space has the same sort key as the name itself, so the stable
      sort keeps argument order; and only the exact name of a champion is
      listed, so a padded champion's name gets the Arcane suffix. */
  lemma PaddedNameBreaksSymmetry(name: string)
    requires IsWord(name)
    ensures RelationshipTag(name + " ", name) != RelationshipTag(name, name + " ")
  {
    var padded := name + " ";
    PaddedWordFacts(name);
    if name in Champions {
      var t1 := padded + ArcaneSuffix + "/" + name + LeagueSuffix;
      var t2 := name + LeagueSuffix + "/" + padded + ArcaneSuffix;
      assert TagSuffixes(padded, name) == (ArcaneSuffix, LeagueSuffix);
      assert TagSuffixes(name, padded) == (LeagueSuffix, ArcaneSuffix);
      assert RelationshipTag(padded, name) == t1;
      assert RelationshipTag(name, padded) == t2;
      var k := |name| + 1;
      var h1, h2 := padded + ArcaneSuffix, name + LeagueSuffix;
      SuffixOpens();
      IndexIntoSuffix(padded, ArcaneSuffix, 0);
      IndexIntoSuffix(name, LeagueSuffix, 1);
      DifferInPrefix(h1, "/", h2, "/", k);
      DifferInPrefix(h1 + "/", name, h2 + "/", padded, k);
      DifferInPrefix(h1 + "/" + name, LeagueSuffix, h2 + "/" + padded, ArcaneSuffix, k);
    } else {
      var t1 := padded + "/" + name + ArcaneSuffix;
      var t2 := name + "/" + padded + ArcaneSuffix;
      assert TagSuffixes(padded, name) == ("", ArcaneSuffix);
      assert TagSuffixes(name, padded) == ("", ArcaneSuffix);
      assert RelationshipTag(padded, name) == t1;
      assert RelationshipTag(name, padded) == t2;
      var k := |name|;
      var h1, h2 := padded + "/", name + "/";
      IndexIntoSuffix(name, " ", 0);
      IndexIntoSuffix(name, "/", 0);
      assert h1[k] == padded[k];
      DifferInPrefix(h1, name, h2, padded, k);
      DifferInPrefix(h1 + name, ArcaneSuffix, h2 + padded, ArcaneSuffix, k);
    }
  }

  lemma SuffixOpens()
    ensures |ArcaneSuffix| > 1 && ArcaneSuffix[0] == ' '
    ensures |LeagueSuffix| > 1 && LeagueSuffix[1] == '('
  {
  }

  lemma IndexIntoSuffix(s: string, t: string, i: nat)
    requires i < |t|
    ensures (s + t)[|s| + i] == t[i]
  {
  }

  /** Strings that differ at an index inside both prefixes differ. */
  lemma DifferInPrefix(s: string, s': string, t: string, t': string, k: nat)
    requires k < |s| && k < |t| && s[k] != t[k]
    ensures k < |s + s'| && k < |t + t'| && (s + s')[k] != (t + t')[k]
    ensures s + s' != t + t'
  {
    assert (s + s')[k] == s[k];
  }

  lemma ChampionsAreWords(name: string)
    requires name in Champions
    ensures IsWord(name)
  {
  }

  /** Only exact names are listed, and every listed name is a word. */
  lemma SpacedNotChampion(s: string, i: nat)
    requires i < |s| && IsSpace(s[i])
    ensures s !in Champions
  {
    if s in Champions {
      ChampionsAreWords(s);
    }
  }

  /** A word and the word with a trailing space: both one-word names, the
      padded one never a champion, and the same sort key. */
  lemma PaddedWordFacts(name: string)
    requires IsWord(name)
    ensures !MultiWord(name + " ") && !MultiWord(name)
    ensures name + " " !in Champions
    ensures ReverseNames(name + " ") == ReverseNames(name)
    ensures SortedPair(name + " ", name) == (name + " ", name)
    ensures SortedPair(name, name + " ") == (name, name + " ")
  {
    var padded := name + " ";
    assert IsSpace(padded[|name|]);
    SpacedNotChampion(padded, |name|);
    LeadingWordOf(name, " ");
    SplitStep(padded);
    assert padded[|name|..] == " ";
    assert Split(padded) == [name];
    SplitWord(name);
    assert ReverseNames(padded) == ReverseNames(name);
  }

  /** `s` split at the first occurrence of `c`, if there is one. */
  function SplitAtFirst(s: string, c: char): Option<(string, string)>
  {
    if |s| == 0 then None
    else if s[0] == c then Some(("", s[1..]))
    else match SplitAtFirst(s[1..], c)
      case None => None
      case Some(parts) => Some(([s[0]] + parts.0, parts.1))
  }

  lemma {:induction false} SplitAtFirstOf(u: string, v: string, c: char)
    requires c !in u
    ensures SplitAtFirst(u + [c] + v, c) == Some((u, v))
    decreases |u|
  {
    if |u| == 0 {
      assert u + [c] + v == [c] + v;
    } else {
      assert (u + [c] + v)[1..] == u[1..] + [c] + v;
      SplitAtFirstOf(u[1..], v, c);
      assert [u[0]] + u[1..] == u;
    }
  }

  predicate EndsWith(s: string, suffix: string) {
    |suffix| <= |s| && s[|s| - |suffix|..] == suffix
  }

  /** The name part of one side of a tag: the side without its fandom suffix. */
  function StripSuffix(h: string): string
  {
    if EndsWith(h, ArcaneSuffix) then h[..|h| - |ArcaneSuffix|]
    else if EndsWith(h, LeagueSuffix) then h[..|h| - |LeagueSuffix|]
    else h
  }

  /** Reads back the ordered pair of names a relationship tag was built from. */
  function DecodeTag(t: string): Option<(string, string)>
  {
    match SplitAtFirst(t, '/')
    case None => None
    case Some(parts) => Some((StripSuffix(parts.0), StripSuffix(parts.1)))
  }

  lemma StripSuffixOf(x: string, s: string)
    requires '(' !in x
    requires s in {"", LeagueSuffix, ArcaneSuffix}
    ensures StripSuffix(x + s) == x
  {
    var h := x + s;
    if s == "" {
      assert h == x;
      if |ArcaneSuffix| <= |x| {
        assert x[|x| - |ArcaneSuffix|..][1] == x[|x| - |ArcaneSuffix| + 1];
      }
      if |LeagueSuffix| <= |x| {
        assert x[|x| - |LeagueSuffix|..][1] == x[|x| - |LeagueSuffix| + 1];
      }
    } else if s == LeagueSuffix {
      LeagueNotArcane(x);
      assert h[|h| - |LeagueSuffix|..] == s;
      assert h[..|h| - |LeagueSuffix|] == x;
    } else {
      assert h[|h| - |ArcaneSuffix|..] == s;
      assert h[..|h| - |ArcaneSuffix|] == x;
    }
  }

  /** The League suffix is not a tail of the Arcane suffix, so stripping tries
      them in either order. */
  lemma LeagueNotArcane(x: string)
    ensures !EndsWith(x + LeagueSuffix, ArcaneSuffix)
  {
    var h := x + LeagueSuffix;
    if |ArcaneSuffix| <= |h| {
      var tail := h[|h| - |ArcaneSuffix|..];
      assert tail[8] == h[|h| - |LeagueSuffix|] == LeagueSuffix[0];
      assert tail[8] != ArcaneSuffix[8];
    }
  }

  /** A tag built from names without '/' or '(' determines the sorted pair. */
  lemma TagDecodes(a: string, b: string)
    requires '/' !in a && '/' !in b
    requires '(' !in a && '(' !in b
    ensures DecodeTag(RelationshipTag(a, b)) == Some(SortedPair(a, b))
  {
    var p := SortedPair(a, b);
    var s := TagSuffixes(p.0, p.1);
    SuffixHasNoSlash(s.0);
    var left, right := p.0 + s.0, p.1 + s.1;
    assert '/' !in left;
    assert RelationshipTag(a, b) == Render(p.0, s.0, p.1, s.1);
    RenderAroundSlash(p.0, s.0, p.1, s.1);
    SplitAtFirstOf(left, right, '/');
    StripSuffixOf(p.0, s.0);
    StripSuffixOf(p.1, s.1);
  }

  lemma RenderAroundSlash(x: string, sx: string, y: string, sy: string)
    ensures Render(x, sx, y, sy) == (x + sx) + ['/'] + (y + sy)
  {
  }

  lemma SuffixHasNoSlash(s: string)
    requires s in {"", LeagueSuffix, ArcaneSuffix}
    ensures '/' !in s
  {
    if s == LeagueSuffix {
      assert forall i :: 0 <= i < |s| ==> s[i] != '/';
    } else if s == ArcaneSuffix {
      assert forall i :: 0 <= i < |s| ==> s[i] != '/';
    }
  }

  /** Read back, a tag lists its two names alphabetically by family name. */
  lemma TagInFamilyNameOrder(a: string, b: string)
    requires '/' !in a && '/' !in b
    requires '(' !in a && '(' !in b
    ensures var d := DecodeTag(RelationshipTag(a, b));
      d.Some? && multiset{d.value.0, d.value.1} == multiset{a, b}
      && LessEq(ReverseNames(d.value.0), ReverseNames(d.value.1))
  {
    TagDecodes(a, b);
  }

  /** Two pairings of such names that search for the same tag are the same
      unordered pair. */
  lemma TagDeterminesPair(a: string, b: string, c: string, d: string)
    requires '/' !in a && '/' !in b && '/' !in c && '/' !in d
    requires '(' !in a && '(' !in b && '(' !in c && '(' !in d
    ensures RelationshipTag(a, b) == RelationshipTag(c, d) ==> multiset{a, b} == multiset{c, d}
  {
    if RelationshipTag(a, b) == RelationshipTag(c, d) {
      TagDecodes(a, b);
      TagDecodes(c, d);
      assert SortedPair(a, b) == SortedPair(c, d);
    }
  }
}
