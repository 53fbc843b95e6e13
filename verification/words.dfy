/** Python's whitespace splitting and single-space joining of strings:
    `s.split()` with no separator and `' '.join(words)`. */
module Words {

  /** The characters Python's `str.isspace` accepts, which are exactly the
      separators `str.split()` with no argument splits on. */
  predicate IsSpace(c: char) {
    ('\t' <= c <= '\r') || ('\U{1C}' <= c <= '\U{1F}') || c == ' '
    || c == '\U{85}' || c == '\U{A0}' || c == '\U{1680}'
    || ('\U{2000}' <= c <= '\U{200A}') || c == '\U{2028}' || c == '\U{2029}'
    || c == '\U{202F}' || c == '\U{205F}' || c == '\U{3000}'
  }

  predicate SpaceFree(s: string) {
    forall i :: 0 <= i < |s| ==> !IsSpace(s[i])
  }

  /** A word as `split()` produces it: non-empty, without whitespace. */
  predicate IsWord(w: string) {
    |w| > 0 && SpaceFree(w)
  }

  predicate AllWords(ws: seq<string>) {
    forall k :: 0 <= k < |ws| ==> IsWord(ws[k])
  }

  /** The longest whitespace-free prefix of `s`. */
  function LeadingWord(s: string): (w: string)
    ensures w <= s
    ensures SpaceFree(w)
    ensures |w| == |s| || IsSpace(s[|w|])
  {
    if |s| == 0 || IsSpace(s[0]) then "" else [s[0]] + LeadingWord(s[1..])
  }

  /** `s.split()`: the maximal runs of non-whitespace characters, in order. */
  function Split(s: string): (ws: seq<string>)
    ensures AllWords(ws)
    ensures |s| > 0 && !IsSpace(s[0]) ==> |ws| > 0 && ws[0] == LeadingWord(s)
    decreases |s|
  {
    if |s| == 0 then []
    else if IsSpace(s[0]) then Split(s[1..])
    else
      var w := LeadingWord(s);
      [w] + Split(s[|w|..])
  }

  /** `' '.join(ws)`. */
  function Join(ws: seq<string>): string
  {
    if |ws| == 0 then ""
    else if |ws| == 1 then ws[0]
    else ws[0] + " " + Join(ws[1..])
  }

  /** Character-level description of strings whose spacing `split` and `join`
      leave alone: every whitespace character is a plain space that sits
      strictly inside the string and is followed by a non-space, so there are
      no leading, trailing, doubled or non-space separators. */
  predicate NormalizedSpacing(s: string) {
    && (forall i :: 0 <= i < |s| && IsSpace(s[i]) ==> s[i] == ' ' && 0 < i < |s| - 1)
    && (forall i, j :: 0 <= i < |s| && 0 <= j < |s| && j == i + 1 ==> !IsSpace(s[i]) || !IsSpace(s[j]))
  }

  /** The characters of `s` that are not whitespace, in order. */
  function NonSpace(s: string): string
  {
    if |s| == 0 then ""
    else (if IsSpace(s[0]) then "" else [s[0]]) + NonSpace(s[1..])
  }

  function Concat(ws: seq<string>): string
  {
    if |ws| == 0 then "" else ws[0] + Concat(ws[1..])
  }

  function Reverse<T>(xs: seq<T>): (r: seq<T>)
    ensures |r| == |xs|
    ensures forall i :: 0 <= i < |xs| ==> r[i] == xs[|xs| - 1 - i]
  {
    seq(|xs|, i requires 0 <= i < |xs| => xs[|xs| - 1 - i])
  }

  lemma ReverseReverse<T>(xs: seq<T>)
    ensures Reverse(Reverse(xs)) == xs
  {
  }

  lemma ReverseAllWords(ws: seq<string>)
    requires AllWords(ws)
    ensures AllWords(Reverse(ws))
  {
  }

  /** The leading word of a word followed by whitespace (or nothing) is that word. */
  lemma {:induction false} LeadingWordOf(w: string, rest: string)
    requires SpaceFree(w)
    requires |rest| == 0 || IsSpace(rest[0])
    ensures LeadingWord(w + rest) == w
    decreases |w|
  {
    if |w| == 0 {
      assert w + rest == rest;
    } else {
      assert (w + rest)[0] == w[0];
      assert (w + rest)[1..] == w[1..] + rest;
      LeadingWordOf(w[1..], rest);
    }
  }

  lemma JoinStartsWithFirstWord(ws: seq<string>)
    requires |ws| > 0 && AllWords(ws)
    ensures |Join(ws)| > 0 && Join(ws)[0] == ws[0][0]
  {
  }

  /** `split` undoes `' '.join` on any sequence of words. */
  lemma {:induction false} SplitJoin(ws: seq<string>)
    requires AllWords(ws)
    ensures Split(Join(ws)) == ws
    decreases |ws|
  {
    if |ws| == 0 {
    } else if |ws| == 1 {
      var w := ws[0];
      LeadingWordOf(w, "");
      assert w + "" == w;
      assert w[|w|..] == "";
    } else {
      var w := ws[0];
      var j := Join(ws[1..]);
      var s := w + " " + j;
      assert Join(ws) == s;
      assert s == w + (" " + j);
      LeadingWordOf(w, " " + j);
      assert s[|w|..] == " " + j;
      assert (" " + j)[1..] == j;
      SplitJoin(ws[1..]);
      assert Split(s) == [w] + Split(" " + j);
      assert Split(" " + j) == Split(j);
    }
  }

  /** A single word splits to itself. */
  lemma SplitWord(w: string)
    requires IsWord(w)
    ensures Split(w) == [w]
  {
    SplitJoin([w]);
  }

  /** Joining words with single spaces produces normalized spacing. */
  lemma {:induction false} JoinNormalized(ws: seq<string>)
    requires AllWords(ws)
    ensures NormalizedSpacing(Join(ws))
    decreases |ws|
  {
    if |ws| <= 1 {
    } else {
      var w := ws[0];
      var rest := Join(ws[1..]);
      var s := w + " " + rest;
      JoinNormalized(ws[1..]);
      JoinStartsWithFirstWord(ws[1..]);
      forall i | 0 <= i < |s| && IsSpace(s[i])
        ensures s[i] == ' ' && 0 < i < |s| - 1
      {
        if i > |w| {
          assert s[i] == rest[i - |w| - 1];
        }
      }
      forall i, j | 0 <= i < j < |s| && j == i + 1
        ensures !IsSpace(s[i]) || !IsSpace(s[j])
      {
        if i < |w| {
          assert s[i] == w[i];
        } else if i == |w| {
          assert s[j] == rest[0];
        } else {
          assert s[i] == rest[i - |w| - 1] && s[j] == rest[j - |w| - 1];
        }
      }
    }
  }

  /** The part of a normalized string after a separator is normalized. */
  lemma NormalizedTail(s: string, k: nat)
    requires NormalizedSpacing(s)
    requires k < |s| && IsSpace(s[k])
    ensures NormalizedSpacing(s[k + 1..])
  {
    var r := s[k + 1..];
    forall i | 0 <= i < |r| && IsSpace(r[i])
      ensures r[i] == ' ' && 0 < i < |r| - 1
    {
      assert r[i] == s[k + 1 + i];
    }
    forall i, j | 0 <= i < j < |r| && j == i + 1
      ensures !IsSpace(r[i]) || !IsSpace(r[j])
    {
      assert r[i] == s[k + 1 + i] && r[j] == s[k + 1 + j];
    }
  }

  /** Splitting a string whose leading word `w` is followed by one space. */
  lemma SplitAfterSpace(s: string, w: string, r: string)
    requires |s| > 0 && !IsSpace(s[0])
    requires w == LeadingWord(s)
    requires |w| < |s| && s[|w|] == ' ' && r == s[|w| + 1..]
    ensures Split(s) == [w] + Split(r)
  {
    assert s[|w|..][0] == ' ';
    assert s[|w|..][1..] == r;
  }

  lemma JoinCons(w: string, ws: seq<string>)
    requires |ws| > 0
    ensures Join([w] + ws) == w + " " + Join(ws)
  {
    assert ([w] + ws)[1..] == ws;
  }

  /** One step of `split` at a non-space character. */
  lemma SplitStep(s: string)
    requires |s| > 0 && !IsSpace(s[0])
    ensures Split(s) == [LeadingWord(s)] + Split(s[|LeadingWord(s)|..])
  {
  }

  /** A normalized string whose leading word is all of it. */
  lemma SplitWhole(s: string)
    requires |s| > 0 && !IsSpace(s[0])
    requires |LeadingWord(s)| == |s|
    ensures Split(s) == [s]
  {
    SplitStep(s);
    var w := LeadingWord(s);
    assert w == s[..|w|] == s;
    assert s[|w|..] == "";
  }

  lemma Reassemble(s: string, k: nat)
    requires k < |s| && s[k] == ' '
    ensures s == s[..k] + " " + s[k + 1..]
  {
  }

  /** `' '.join(s.split())` is the identity on normalized spacing. */
  lemma {:induction false} NormalizedJoinSplit(s: string)
    requires NormalizedSpacing(s)
    ensures Join(Split(s)) == s
    decreases |s|
  {
    if |s| == 0 {
    } else {
      assert !IsSpace(s[0]);
      var w := LeadingWord(s);
      var k := |w|;
      if k == |s| {
        SplitWhole(s);
      } else {
        assert IsSpace(s[k]) && s[k] == ' ';
        var r := s[k + 1..];
        NormalizedTail(s, k);
        NormalizedJoinSplit(r);
        SplitAfterSpace(s, w, r);
        JoinCons(w, Split(r));
        assert w == s[..k];
        Reassemble(s, k);
      }
    }
  }

  /** The character-level description agrees with the split/join round trip. */
  lemma NormalizedSpacingIff(s: string)
    ensures NormalizedSpacing(s) <==> Join(Split(s)) == s
  {
    if NormalizedSpacing(s) {
      NormalizedJoinSplit(s);
    }
    if Join(Split(s)) == s {
      JoinNormalized(Split(s));
    }
  }

  lemma {:induction false} NonSpaceAppend(a: string, b: string)
    ensures NonSpace(a + b) == NonSpace(a) + NonSpace(b)
    decreases |a|
  {
    if |a| == 0 {
      assert a + b == b;
    } else {
      assert (a + b)[1..] == a[1..] + b;
      NonSpaceAppend(a[1..], b);
    }
  }

  lemma {:induction false} NonSpaceOfSpaceFree(w: string)
    requires SpaceFree(w)
    ensures NonSpace(w) == w
    decreases |w|
  {
    if |w| > 0 {
      NonSpaceOfSpaceFree(w[1..]);
      assert w == [w[0]] + w[1..];
    }
  }

  lemma ConcatCons(w: string, ws: seq<string>)
    ensures Concat([w] + ws) == w + Concat(ws)
  {
    assert ([w] + ws)[1..] == ws;
  }

  /** At a whitespace character, neither `split` nor `NonSpace` keeps anything. */
  lemma SkipSpace(s: string)
    requires |s| > 0 && IsSpace(s[0])
    ensures Split(s) == Split(s[1..])
    ensures NonSpace(s) == NonSpace(s[1..])
  {
  }

  /** `split` keeps every non-whitespace character, in order, and nothing else. */
  lemma {:induction false} SplitKeepsNonSpace(s: string)
    ensures Concat(Split(s)) == NonSpace(s)
    decreases |s|
  {
    if |s| == 0 {
    } else if IsSpace(s[0]) {
      SkipSpace(s);
      SplitKeepsNonSpace(s[1..]);
    } else {
      var w := LeadingWord(s);
      var rest := s[|w|..];
      assert s == w + rest;
      SplitStep(s);
      SplitKeepsNonSpace(rest);
      ConcatCons(w, Split(rest));
      NonSpaceAppend(w, rest);
      NonSpaceOfSpaceFree(w);
    }
  }
}
