/** Python's `strip`, `split` and `splitlines` on strings, and what they ignore. */
module Text {

  /** The characters that `str.isspace` accepts. */
  predicate IsSpace(c: char) {
    var n := c as int;
    || 0x09 <= n <= 0x0D || 0x1C <= n <= 0x20 || n == 0x85 || n == 0xA0 || n == 0x1680
    || 0x2000 <= n <= 0x200A || n == 0x2028 || n == 0x2029 || n == 0x202F || n == 0x205F || n == 0x3000
  }

  predicate AllSpace(s: string) {
    forall i :: 0 <= i < |s| ==> IsSpace(s[i])
  }

  function StripLeft(s: string): string {
    if s != "" && IsSpace(s[0]) then StripLeft(s[1..]) else s
  }

  function StripRight(s: string): string {
    if s != "" && IsSpace(s[|s| - 1]) then StripRight(s[..|s| - 1]) else s
  }

  function Strip(s: string): string {
    StripRight(StripLeft(s))
  }

  /** Splits at white space; `word` is what has been read of the current word. */
  function WordsFrom(word: string, s: string): seq<string>
    decreases |s|
  {
    if s == "" then (if word == "" then [] else [word])
    else if IsSpace(s[0]) then (if word == "" then [] else [word]) + WordsFrom("", s[1..])
    else WordsFrom(word + [s[0]], s[1..])
  }

  function Words(s: string): seq<string> {
    WordsFrom("", s)
  }

  // ---- Case folding, character by character ----

  /** A case folding keeps white space and turns no other character into it. */
  ghost predicate IsFolding(fold: char -> string) {
    && (forall c :: IsSpace(c) ==> fold(c) == [c])
    && (forall c, i :: !IsSpace(c) && 0 <= i < |fold(c)| ==> !IsSpace(fold(c)[i]))
  }

  function FoldAll(fold: char -> string, s: string): string {
    if s == "" then "" else fold(s[0]) + FoldAll(fold, s[1..])
  }

  lemma {:induction false} FoldJoin(fold: char -> string, s: string, t: string)
    ensures FoldAll(fold, s + t) == FoldAll(fold, s) + FoldAll(fold, t)
  {
    if s == "" {
      assert s + t == t;
    } else {
      assert (s + t)[1..] == s[1..] + t;
      FoldJoin(fold, s[1..], t);
    }
  }

  lemma {:induction false} FoldSpaces(fold: char -> string, s: string)
    requires IsFolding(fold) && AllSpace(s)
    ensures FoldAll(fold, s) == s
  {
    if s != "" {
      assert AllSpace(s[1..]) by { assert forall i :: 0 <= i < |s| - 1 ==> s[1..][i] == s[i + 1]; }
      FoldSpaces(fold, s[1..]);
    }
  }

  lemma {:induction false} StripLeftSplits(s: string) returns (spaces: string)
    ensures AllSpace(spaces) && s == spaces + StripLeft(s)
  {
    if s != "" && IsSpace(s[0]) {
      spaces := StripLeftSplits(s[1..]);
      spaces := [s[0]] + spaces;
    } else {
      spaces := "";
    }
  }

  lemma {:induction false} StripRightSplits(s: string) returns (spaces: string)
    ensures AllSpace(spaces) && s == StripRight(s) + spaces
  {
    if s != "" && IsSpace(s[|s| - 1]) {
      spaces := StripRightSplits(s[..|s| - 1]);
      spaces := spaces + [s[|s| - 1]];
    } else {
      spaces := "";
    }
  }

  lemma {:induction false} WordsSkipLeading(spaces: string, s: string)
    requires AllSpace(spaces)
    ensures Words(spaces + s) == Words(s)
  {
    if spaces == "" {
      assert spaces + s == s;
    } else {
      assert AllSpace(spaces[1..]) by { assert forall i :: 0 <= i < |spaces| - 1 ==> spaces[1..][i] == spaces[i + 1]; }
      assert (spaces + s)[1..] == spaces[1..] + s;
      WordsSkipLeading(spaces[1..], s);
    }
  }

  lemma {:induction false} WordsSkipTrailing(word: string, s: string, spaces: string)
    requires AllSpace(spaces)
    ensures WordsFrom(word, s + spaces) == WordsFrom(word, s)
    decreases |s|
  {
    if s == "" {
      assert s + spaces == spaces;
      if spaces != "" {
        WordsSkipLeading(spaces[1..], "");
        assert spaces[1..] + "" == spaces[1..];
      }
    } else {
      assert (s + spaces)[1..] == s[1..] + spaces;
      if IsSpace(s[0]) {
        WordsSkipTrailing("", s[1..], spaces);
      } else {
        WordsSkipTrailing(word + [s[0]], s[1..], spaces);
      }
    }
  }

  /** Stripping does not change the folded words of a text. */
  lemma StripKeepsWords(fold: char -> string, s: string)
    requires IsFolding(fold)
    ensures Words(FoldAll(fold, Strip(s))) == Words(FoldAll(fold, s))
  {
    var left := StripLeftSplits(s);
    var t := StripLeft(s);
    var right := StripRightSplits(t);
    FoldJoin(fold, left, t);
    FoldSpaces(fold, left);
    WordsSkipLeading(left, FoldAll(fold, t));
    FoldJoin(fold, StripRight(t), right);
    FoldSpaces(fold, right);
    WordsSkipTrailing("", FoldAll(fold, StripRight(t)), right);
  }

  /** White space and case are all that comparing folded words ignores at the ends of a text. */
  lemma PaddingIsIgnored(fold: char -> string, before: string, s: string, after: string)
    requires IsFolding(fold) && AllSpace(before) && AllSpace(after)
    ensures Words(FoldAll(fold, before + s + after)) == Words(FoldAll(fold, s))
  {
    FoldJoin(fold, before + s, after);
    FoldJoin(fold, before, s);
    FoldSpaces(fold, before);
    FoldSpaces(fold, after);
    WordsSkipTrailing("", FoldAll(fold, before) + FoldAll(fold, s), after);
    WordsSkipLeading(before, FoldAll(fold, s));
  }

  // ---- Stripping twice ----

  predicate Stripped(s: string) {
    s == "" || (!IsSpace(s[0]) && !IsSpace(s[|s| - 1]))
  }

  lemma {:induction false} StripRightFirst(s: string)
    ensures StripRight(s) <= s && (StripRight(s) != "" ==> !IsSpace(StripRight(s)[|StripRight(s)| - 1]))
  {
    if s != "" && IsSpace(s[|s| - 1]) {
      StripRightFirst(s[..|s| - 1]);
    }
  }

  lemma {:induction false} StripLeftLast(s: string)
    ensures StripLeft(s) != "" ==> !IsSpace(StripLeft(s)[0])
  {
    if s != "" && IsSpace(s[0]) {
      StripLeftLast(s[1..]);
    }
  }

  /** Stripping a second time changes nothing. */
  lemma StripTwice(s: string)
    ensures Stripped(Strip(s)) && Strip(Strip(s)) == Strip(s)
  {
    StripLeftLast(s);
    StripRightFirst(StripLeft(s));
  }

  /** Exactly the white space at both ends is taken away; nothing is left of a text of white space. */
  lemma StripExactly(s: string) returns (before: string, after: string)
    ensures AllSpace(before) && AllSpace(after) && s == before + Strip(s) + after && Stripped(Strip(s))
    ensures Strip(s) == "" <==> AllSpace(s)
  {
    before := StripLeftSplits(s);
    after := StripRightSplits(StripLeft(s));
    StripTwice(s);
    if Strip(s) != "" { assert s[|before|] == Strip(s)[0]; }
  }
}
