/**
  The global `replace(/\x1b\[…/g, '')` calls that strip terminal control sequences.
  Every one of them has the shape `ESC [ lead params* final`, where the parameter class
  and the final class share no character, so the greedy star never needs to give a
  character back: a match is the longest run of parameters followed by a final character.
*/
module Csi {
  import opened Text

  const ESC: char := '\U{001B}'

  /** The regular expression `\x1b\[` + lead + `[params]*[final]`. */
  datatype Pattern = Pattern(lead: string, params: CharClass, final: CharClass)

  /** No character is both a parameter and a final character. */
  predicate Disjoint(p: Pattern) {
    forall c: char :: !(InClass(c, p.params) && InClass(c, p.final))
  }

  /** server/src/server.js:268, before the question is parsed. */
  const QuestionCodes := Pattern("", DigitsSemiQuery, Letters)
  /** server/src/server.js:325, before the classifier window is extended. */
  const StateCodes := Pattern("", DigitsSemi, Letters)
  /** mobile/src/components/AnsiText.js:34-37, the four clean-up passes in order. */
  const PrivateModes := Pattern("?", DigitsSemi, Letters)
  const CursorMoves := Pattern("", Digits, CursorFinals)
  const EqualsModes := Pattern("=", Digits, Letters)
  const MoreMoves := Pattern("", Digits, MoveFinals)

  /** `s[i..]` starts with `ESC [ lead P f`, `P` all parameters and `f` a final character. */
  predicate SequenceAt(p: Pattern, s: string, i: nat, n: nat) {
    && i + n <= |s|
    && n >= 3 + |p.lead|
    && s[i] == ESC && s[i + 1] == '['
    && s[i + 2..i + 2 + |p.lead|] == p.lead
    && AllIn(s[i + 2 + |p.lead|..i + n - 1], p.params)
    && InClass(s[i + n - 1], p.final)
  }

  /** The length of the match of `p` that starts at `i`, or 0 when none starts there. */
  function MatchAt(p: Pattern, s: string, i: nat): (n: nat)
    requires i <= |s|
    ensures n == 0 || SequenceAt(p, s, i, n)
  {
    var h := i + 2 + |p.lead|;
    if h <= |s| && s[i] == ESC && s[i + 1] == '[' && s[i + 2..h] == p.lead then
      var e := RunEnd(s, h, p.params);
      RunEndSpan(s, h, p.params);
      if e < |s| && InClass(s[e], p.final) then e + 1 - i else 0
    else 0
  }

  /** Conversely, every control sequence of the pattern's shape that starts at `i` is
      found, with exactly its length, when the two classes are disjoint. */
  lemma MatchAtFindsEverySequence(p: Pattern, s: string, i: nat, n: nat)
    requires Disjoint(p)
    requires SequenceAt(p, s, i, n)
    ensures MatchAt(p, s, i) == n
  {
    var h := i + 2 + |p.lead|;
    var e := RunEnd(s, h, p.params);
    assert forall j :: h <= j < i + n - 1 ==> InClass(s[j], p.params) by {
      forall j | h <= j < i + n - 1 ensures InClass(s[j], p.params) {
        assert s[j] == s[h..i + n - 1][j - h];
      }
    }
    RunEndIs(s, h, i + n - 1, p.params);
  }

  function StripFrom(p: Pattern, s: string, i: nat): (r: string)
    requires i <= |s|
    ensures |r| <= |s| - i
    decreases |s| - i
  {
    if i == |s| then []
    else
      var n := MatchAt(p, s, i);
      if n > 0 then StripFrom(p, s, i + n) else [s[i]] + StripFrom(p, s, i + 1)
  }

  /** `s.replace(regex, '')` with the global flag: scan from the left, drop each match,
      and resume after it. Stripping only ever removes characters. */
  function Strip(p: Pattern, s: string): (r: string)
    ensures |r| <= |s|
  {
    StripFrom(p, s, 0)
  }

  /** Text without an escape character passes through unchanged. */
  lemma {:induction false} StripFromKeepsPlainText(p: Pattern, s: string, i: nat)
    requires i <= |s|
    requires ESC !in s[i..]
    ensures StripFrom(p, s, i) == s[i..]
    decreases |s| - i
  {
    if i < |s| {
      assert s[i] == s[i..][0];
      assert s[i + 1..] == s[i..][1..];
      StripFromKeepsPlainText(p, s, i + 1);
    }
  }

  lemma StripKeepsPlainText(p: Pattern, s: string)
    requires ESC !in s
    ensures Strip(p, s) == s
  {
    assert s[0..] == s;
    StripFromKeepsPlainText(p, s, 0);
  }

  /** A character no match of `p` can contain. */
  predicate NeverMatched(p: Pattern, c: char) {
    c != ESC && c != '[' && c !in p.lead && !InClass(c, p.params) && !InClass(c, p.final)
  }

  /** A match contains no character that the pattern cannot match. */
  lemma SequenceLacks(p: Pattern, s: string, i: nat, c: char)
    requires i < |s|
    requires NeverMatched(p, c)
    requires MatchAt(p, s, i) > 0
    ensures CountOf(s[i..i + MatchAt(p, s, i)], c) == 0
  {
    var n := MatchAt(p, s, i);
    var h := i + 2 + |p.lead|;
    forall k | i <= k < i + n
      ensures s[k] != c
    {
      if i + 2 <= k < h {
        assert s[k] == s[i + 2..h][k - i - 2];
      } else if h <= k < i + n - 1 {
        assert s[k] == s[h..i + n - 1][k - h];
      }
    }
    assert c !in s[i..i + n];
    CountOfAbsent(s[i..i + n], c);
  }

  lemma SplitCount(s: string, i: nat, j: nat, c: char)
    requires i <= j <= |s|
    ensures CountOf(s[i..], c) == CountOf(s[i..j], c) + CountOf(s[j..], c)
  {
    assert s[i..] == s[i..j] + s[j..];
    CountOfAppend(s[i..j], s[j..], c);
  }

  lemma StripFromSkipsMatch(p: Pattern, s: string, i: nat)
    requires i < |s|
    requires MatchAt(p, s, i) > 0
    ensures StripFrom(p, s, i) == StripFrom(p, s, i + MatchAt(p, s, i))
  {
  }

  /** Removing the matches keeps every character that no match can contain. */
  lemma {:induction false} StripFromKeepsCount(p: Pattern, s: string, i: nat, c: char)
    requires i <= |s|
    requires NeverMatched(p, c)
    ensures CountOf(StripFrom(p, s, i), c) == CountOf(s[i..], c)
    decreases |s| - i, 1
  {
    if i < |s| {
      if MatchAt(p, s, i) > 0 {
        DropMatchKeepsCount(p, s, i, c);
      } else {
        KeepCharKeepsCount(p, s, i, c);
      }
    }
  }

  lemma {:induction false} DropMatchKeepsCount(p: Pattern, s: string, i: nat, c: char)
    requires i < |s|
    requires NeverMatched(p, c)
    requires MatchAt(p, s, i) > 0
    ensures CountOf(StripFrom(p, s, i), c) == CountOf(s[i..], c)
    decreases |s| - i, 0
  {
    var j := i + MatchAt(p, s, i);
    StripFromSkipsMatch(p, s, i);
    StripFromKeepsCount(p, s, j, c);
    SplitCount(s, i, j, c);
    SequenceLacks(p, s, i, c);
  }

  lemma {:induction false} KeepCharKeepsCount(p: Pattern, s: string, i: nat, c: char)
    requires i < |s|
    requires NeverMatched(p, c)
    requires MatchAt(p, s, i) == 0
    ensures CountOf(StripFrom(p, s, i), c) == CountOf(s[i..], c)
    decreases |s| - i, 0
  {
    StripFromKeepsCount(p, s, i + 1, c);
    SplitCount(s, i, i + 1, c);
    assert s[i..i + 1] == [s[i]];
    CountOfAppend([s[i]], StripFrom(p, s, i + 1), c);
  }

  lemma StripKeepsCount(p: Pattern, s: string, c: char)
    requires NeverMatched(p, c)
    ensures CountOf(Strip(p, s), c) == CountOf(s, c)
  {
    assert s[0..] == s;
    StripFromKeepsCount(p, s, 0, c);
  }

  /** None of the patterns' parameter characters can end a sequence, so each match is the longest one. */
  lemma PatternsDisjoint()
    ensures Disjoint(QuestionCodes) && Disjoint(StateCodes) && Disjoint(PrivateModes)
    ensures Disjoint(CursorMoves) && Disjoint(EqualsModes) && Disjoint(MoreMoves)
  {
  }
}
