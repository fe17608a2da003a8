/** `str.split()`: the words of a text, and the texts with given words. */
module Tokens {

  import opened Text

  type Space = char -> bool

  ghost predicate IsWord(space: Space, s: string) {
    s != [] && forall i :: 0 <= i < |s| ==> !space(s[i])
  }

  /** The length of the leading word. */
  function WordLength(space: Space, s: string): (n: nat)
    ensures n <= |s| && (n < |s| ==> space(s[n]))
    ensures forall i :: 0 <= i < n ==> !space(s[i])
  {
    if s == [] || space(s[0]) then 0 else 1 + WordLength(space, s[1..])
  }

  function Split(space: Space, s: string): (words: seq<string>)
    ensures forall w :: w in words ==> IsWord(space, w)
    decreases |s|
  {
    if s == [] then []
    else if space(s[0]) then Split(space, s[1..])
    else
      var n := WordLength(space, s);
      [s[..n]] + Split(space, s[n..])
  }

  // ----- a text is its words and the blanks around them

  /** `gaps[0] words[0] gaps[1] words[1] ... gaps[n]` */
  function Render(words: seq<string>, gaps: seq<string>): string
    requires |gaps| == |words| + 1
  {
    if words == [] then gaps[0] else gaps[0] + words[0] + Render(words[1..], gaps[1..])
  }

  /** Blanks everywhere, and at least one between two words. */
  ghost predicate Spacing(space: Space, words: seq<string>, gaps: seq<string>) {
    && |gaps| == |words| + 1
    && (forall i :: 0 <= i < |gaps| ==> Blank(space, gaps[i]))
    && (forall i :: 0 < i < |words| ==> gaps[i] != [])
  }

  lemma {:induction false} SplitAfterBlank(space: Space, gap: string, rest: string)
    requires Blank(space, gap)
    ensures Split(space, gap + rest) == Split(space, rest)
    decreases |gap|
  {
    if gap == [] {
      assert gap + rest == rest;
    } else {
      assert (gap + rest)[0] == gap[0] && (gap + rest)[1..] == gap[1..] + rest;
      SplitAfterBlank(space, gap[1..], rest);
    }
  }

  lemma {:induction false} WordLengthOf(space: Space, word: string, rest: string)
    requires (forall i :: 0 <= i < |word| ==> !space(word[i])) && (rest != [] ==> space(rest[0]))
    ensures WordLength(space, word + rest) == |word|
  {
    if word == [] {
      assert word + rest == rest;
    } else {
      assert (word + rest)[0] == word[0] && (word + rest)[1..] == word[1..] + rest;
      WordLengthOf(space, word[1..], rest);
    }
  }

  lemma SplitAfterWord(space: Space, word: string, rest: string)
    requires IsWord(space, word) && (rest != [] ==> space(rest[0]))
    ensures Split(space, word + rest) == [word] + Split(space, rest)
  {
    WordLengthOf(space, word, rest);
    var s := word + rest;
    assert s[0] == word[0] && s[..|word|] == word && s[|word|..] == rest;
  }

  lemma RenderStartsWithGap(space: Space, words: seq<string>, gaps: seq<string>)
    requires Spacing(space, words, gaps) && (words != [] ==> gaps[0] != [])
    ensures Render(words, gaps) != [] ==> space(Render(words, gaps)[0])
  {
    assert Blank(space, gaps[0]);
  }

  /** Splitting a text gives back its words, whatever the spacing. */
  lemma {:induction false} SplitOfRender(space: Space, words: seq<string>, gaps: seq<string>)
    requires (forall w :: w in words ==> IsWord(space, w)) && Spacing(space, words, gaps)
    ensures Split(space, Render(words, gaps)) == words
    decreases |words|
  {
    assert Blank(space, gaps[0]);
    if words == [] {
      SplitAfterBlank(space, gaps[0], []);
      assert gaps[0] + [] == gaps[0];
    } else {
      var rest := Render(words[1..], gaps[1..]);
      assert Spacing(space, words[1..], gaps[1..]) by {
        assert forall i :: 0 <= i < |gaps[1..]| ==> gaps[1..][i] == gaps[i + 1];
      }
      SplitOfRender(space, words[1..], gaps[1..]);
      if words[1..] != [] { assert gaps[1..][0] == gaps[1]; }
      RenderStartsWithGap(space, words[1..], gaps[1..]);
      SplitAfterWord(space, words[0], rest);
      SplitAfterBlank(space, gaps[0], words[0] + rest);
      assert gaps[0] + words[0] + rest == gaps[0] + (words[0] + rest);
    }
  }

  lemma WordEndsAtBlank(space: Space, s: string)
    requires s != [] && !space(s[0])
    ensures var n := WordLength(space, s);
            0 < n && IsWord(space, s[..n]) && (s[n..] != [] ==> space(s[n..][0]))
  {
  }

  /** One more blank in front. */
  lemma RenderAfterBlank(space: Space, c: char, words: seq<string>, gaps: seq<string>)
    requires space(c) && Spacing(space, words, gaps)
    ensures var wider := [[c] + gaps[0]] + gaps[1..];
            Spacing(space, words, wider) && Render(words, wider) == [c] + Render(words, gaps)
  {
    var wider := [[c] + gaps[0]] + gaps[1..];
    forall i | 0 <= i < |wider| ensures Blank(space, wider[i]) {
      assert Blank(space, gaps[i]);
    }
    assert wider[1..] == gaps[1..];
    if words != [] {
      var rest := Render(words[1..], gaps[1..]);
      assert [c] + gaps[0] + words[0] + rest == [c] + (gaps[0] + words[0] + rest);
    }
  }

  /** One more word in front. */
  lemma RenderAfterWord(space: Space, word: string, words: seq<string>, gaps: seq<string>)
    requires Spacing(space, words, gaps) && (words != [] ==> gaps[0] != [])
    ensures Spacing(space, [word] + words, [[]] + gaps)
    ensures Render([word] + words, [[]] + gaps) == word + Render(words, gaps)
  {
    var wider := [[]] + gaps;
    forall i | 0 <= i < |wider| ensures Blank(space, wider[i]) {
      if 0 < i { assert Blank(space, gaps[i - 1]); }
    }
    assert wider[1..] == gaps && ([word] + words)[1..] == words;
  }

  /** `s` is the rendering of its words with `gaps`. */
  ghost predicate Renders(space: Space, s: string, gaps: seq<string>) {
    && Spacing(space, Split(space, s), gaps) && Render(Split(space, s), gaps) == s
    && (s != [] && space(s[0]) ==> gaps[0] != [])
  }

  lemma RendersAfterBlank(space: Space, s: string, tail: seq<string>)
    requires s != [] && space(s[0]) && Renders(space, s[1..], tail)
    ensures Renders(space, s, [[s[0]] + tail[0]] + tail[1..])
  {
    RenderAfterBlank(space, s[0], Split(space, s[1..]), tail);
    hide Spacing, Render;
    assert s == [s[0]] + s[1..];
  }

  lemma RendersAfterWord(space: Space, s: string, tail: seq<string>)
    requires s != [] && !space(s[0]) && Renders(space, s[WordLength(space, s)..], tail)
    ensures Renders(space, s, [[]] + tail)
  {
    var n := WordLength(space, s);
    WordEndsAtBlank(space, s);
    var words := Split(space, s[n..]);
    if words != [] { assert s[n..] != []; }
    RenderAfterWord(space, s[..n], words, tail);
    hide Spacing, Render;
    assert s == s[..n] + s[n..];
  }

  /** Every text is a rendering of its words. */
  lemma {:induction false} RenderOfSplit(space: Space, s: string) returns (gaps: seq<string>)
    ensures Renders(space, s, gaps)
    decreases |s|
  {
    if s == [] {
      gaps := [[]];
    } else if space(s[0]) {
      var tail := RenderOfSplit(space, s[1..]);
      RendersAfterBlank(space, s, tail);
      gaps := [[s[0]] + tail[0]] + tail[1..];
      hide *;
    } else {
      WordEndsAtBlank(space, s);
      var tail := RenderOfSplit(space, s[WordLength(space, s)..]);
      RendersAfterWord(space, s, tail);
      gaps := [[]] + tail;
      hide *;
    }
  }

  // ----- splitting commutes with what the comparator does to a text

  function LowerText(lower: char -> char, s: string): (r: string)
    ensures |r| == |s| && forall i :: 0 <= i < |s| ==> r[i] == lower(s[i])
  {
    if s == [] then [] else [lower(s[0])] + LowerText(lower, s[1..])
  }

  function LowerWords(lower: char -> char, words: seq<string>): (r: seq<string>)
    ensures |r| == |words| && forall i :: 0 <= i < |words| ==> r[i] == LowerText(lower, words[i])
  {
    if words == [] then [] else [LowerText(lower, words[0])] + LowerWords(lower, words[1..])
  }

  ghost predicate KeepsSpace(space: Space, lower: char -> char) {
    forall c :: space(lower(c)) <==> space(c)
  }

  lemma {:induction false} WordLengthOfLower(space: Space, lower: char -> char, s: string)
    requires KeepsSpace(space, lower)
    ensures WordLength(space, LowerText(lower, s)) == WordLength(space, s)
  {
    if s != [] {
      WordLengthOfLower(space, lower, s[1..]);
      assert LowerText(lower, s)[1..] == LowerText(lower, s[1..]);
    }
  }

  lemma {:induction false} SplitOfLower(space: Space, lower: char -> char, s: string)
    requires KeepsSpace(space, lower)
    ensures Split(space, LowerText(lower, s)) == LowerWords(lower, Split(space, s))
    decreases |s|
  {
    var l := LowerText(lower, s);
    if s == [] {
    } else if space(s[0]) {
      SplitOfLower(space, lower, s[1..]);
      assert l[1..] == LowerText(lower, s[1..]);
    } else {
      var n := WordLength(space, s);
      WordLengthOfLower(space, lower, s);
      SplitOfLower(space, lower, s[n..]);
      assert l[..n] == LowerText(lower, s[..n]) && l[n..] == LowerText(lower, s[n..]);
      assert Split(space, s)[1..] == Split(space, s[n..]);
    }
  }

  /** `str.rstrip("\n")` */
  function StripNewlines(s: string): (r: string)
    ensures r <= s && (r != [] ==> r[|r| - 1] != '\n')
  {
    if s != [] && s[|s| - 1] == '\n' then StripNewlines(s[..|s| - 1]) else s
  }

  /** Only newlines are stripped. */
  lemma {:induction false} OnlyNewlinesAreStripped(s: string, i: nat)
    requires |StripNewlines(s)| <= i < |s|
    ensures s[i] == '\n'
  {
    if i < |s| - 1 {
      OnlyNewlinesAreStripped(s[..|s| - 1], i);
    }
  }

  lemma {:induction false} SplitBeforeBlank(space: Space, s: string, c: char)
    requires space(c)
    ensures Split(space, s + [c]) == Split(space, s)
    decreases |s|
  {
    var t := s + [c];
    if s == [] {
      assert t[0] == c && t[1..] == [];
    } else if space(s[0]) {
      assert t[1..] == s[1..] + [c];
      SplitBeforeBlank(space, s[1..], c);
    } else {
      var n := WordLength(space, s);
      WordEndsAtBlank(space, s);
      assert t == s[..n] + (s[n..] + [c]);
      WordLengthOf(space, s[..n], s[n..] + [c]);
      assert t[..n] == s[..n] && t[n..] == s[n..] + [c];
      SplitBeforeBlank(space, s[n..], c);
    }
  }

  lemma {:induction false} SplitOfStripped(space: Space, s: string)
    requires space('\n')
    ensures Split(space, StripNewlines(s)) == Split(space, s)
  {
    if s != [] && s[|s| - 1] == '\n' {
      SplitOfStripped(space, s[..|s| - 1]);
      SplitBeforeBlank(space, s[..|s| - 1], '\n');
      assert s == s[..|s| - 1] + ['\n'];
    }
  }
}
