/**
  The relay's two-state classifier (`detectState`, server/src/server.js:323-414): two
  ordered tables of regular expressions tested against the lower-cased window of recent
  output. Each expression is written out as a predicate over the positions where a match
  starts; the window is already lower case when the tables are tested, so the `/i` flag
  adds nothing and the predicates compare lower-case letters only.
*/
module Classifier {
  import opened Text

  const WorkingState := "working"
  const WaitingState := "waiting"

  /** The shapes of the expressions in the two tables. */
  datatype Rule =
    | PlusWord                         // \+[a-z]+\.\.\.
    | Bar                              // \[=+\]
    | EndsWith(c: char)                // c\s*$
    | MenuItem                         // \d+[\.\)]\s+[a-z]
    | Phrase(words: seq<seq<string>>)  // w1\s+w2\s+...; each word one of its alternatives

  /** `s[i..]` starts with one of the alternatives of the first word, then (for every
      further word) at least one white space character and a match of the rest. */
  predicate PhraseAt(s: string, i: nat, words: seq<seq<string>>)
    requires i <= |s|
    decreases |words|
  {
    words == [] ||
    exists w :: w in words[0] && OccursAt(s, w, i) &&
      (|words| == 1 || exists e :: i + |w| < e <= |s| && AllSpace(s[i + |w|..e]) && PhraseAt(s, e, words[1..]))
  }

  /** `s[i..]` starts with `+`, at least one letter up to `e`, and `...` at `e`. */
  predicate PlusWordAt(s: string, i: nat) {
    exists e :: i + 1 < e <= |s| && s[i] == '+' && AllIn(s[i + 1..e], Letters) && OccursAt(s, "...", e)
  }

  /** `s[i..]` starts with `[`, at least one `=`, and `]` at `e`. */
  predicate BarAt(s: string, i: nat) {
    exists e :: i + 1 < e < |s| && s[i] == '[' && (forall k :: i < k < e ==> s[k] == '=') && s[e] == ']'
  }

  /** `s[d..]` starts with `.` or `)`, at least one white space character, and a letter. */
  predicate SeparatorThenWord(s: string, d: nat) {
    exists e :: d + 1 < e < |s| && IsSeparator(s[d]) && AllSpace(s[d + 1..e]) && 'a' <= s[e] <= 'z'
  }

  /** `s[i..]` starts with at least one digit followed by `SeparatorThenWord`. */
  predicate MenuItemAt(s: string, i: nat) {
    exists d :: i < d < |s| && AllDigits(s[i..d]) && SeparatorThenWord(s, d)
  }

  /** A match of `r` starts at `i`. */
  predicate RuleAt(r: Rule, s: string, i: nat)
    requires i <= |s|
  {
    match r
    case PlusWord => PlusWordAt(s, i)
    case Bar => BarAt(s, i)
    case EndsWith(c) => i < |s| && s[i] == c && AllSpace(s[i + 1..])
    case MenuItem => MenuItemAt(s, i)
    case Phrase(words) => PhraseAt(s, i, words)
  }

  /** `regex.test(s)`: a match starts somewhere. */
  predicate Matches(r: Rule, s: string) {
    exists i :: 0 <= i <= |s| && RuleAt(r, s, i)
  }

  /** The "working" table (server.js:340-350), in order. */
  const WorkingRules: seq<Rule> := [
    PlusWord,
    Phrase([["loading..."]]),
    Phrase([["processing..."]]),
    Phrase([["analyzing..."]]),
    Phrase([["thinking..."]]),
    Phrase([["searching..."]]),
    Phrase([["reading..."]]),
    Phrase([["writing..."]]),
    Bar
  ]

  /** The "waiting" table (server.js:364-379), in order. */
  const WaitingRules: seq<Rule> := [
    EndsWith('?'),
    EndsWith('>'),
    MenuItem,
    Phrase([["❯"]]),
    Phrase([["(y/n)"]]),
    Phrase([["press"], ["enter"]]),
    Phrase([["select"], ["an"], ["option"]]),
    Phrase([["what"], ["would"], ["you"], ["like"]]),
    Phrase([["waiting"], ["for"], ["input", "you"]]),
    Phrase([["please"], ["choose", "select", "enter", "type"]]),
    Phrase([["would"], ["you"], ["like"]]),
    Phrase([["do"], ["you"], ["want"]]),
    Phrase([["how"], ["would", "should", "can"]]),
    Phrase([["type"], ["something"]])
  ]

  /** Some rule of the table matches. */
  predicate AnyMatches(rules: seq<Rule>, s: string) {
    |rules| > 0 && (Matches(rules[0], s) || AnyMatches(rules[1..], s))
  }

  /** `AnyMatches` holds exactly when some rule of the table matches. */
  lemma {:induction false} AnyMatchesIff(rules: seq<Rule>, s: string)
    ensures AnyMatches(rules, s) <==> exists k :: 0 <= k < |rules| && Matches(rules[k], s)
  {
    if |rules| > 0 {
      AnyMatchesIff(rules[1..], s);
      if AnyMatches(rules[1..], s) {
        var k :| 0 <= k < |rules[1..]| && Matches(rules[1..][k], s);
        assert Matches(rules[k + 1], s);
      }
      forall k | 1 <= k < |rules| && Matches(rules[k], s)
        ensures AnyMatches(rules[1..], s)
      {
        assert rules[1..][k - 1] == rules[k];
      }
    }
  }

  /** The state the classifier moves to from `current` on the lower-cased window. */
  function NextState(current: string, lower: string): string {
    if AnyMatches(WaitingRules, lower) then WaitingState
    else if AnyMatches(WorkingRules, lower) then WorkingState
    else current
  }

  /** A waiting rule wins over a working rule; with neither the state is kept. Stated
      with the rule indices, as the two loops see them. */
  lemma NextStateCases(current: string, lower: string)
    ensures (exists k :: 0 <= k < |WaitingRules| && Matches(WaitingRules[k], lower)) ==> NextState(current, lower) == WaitingState
    ensures ((forall k :: 0 <= k < |WaitingRules| ==> !Matches(WaitingRules[k], lower))
      && (exists k :: 0 <= k < |WorkingRules| && Matches(WorkingRules[k], lower))) ==> NextState(current, lower) == WorkingState
    ensures ((forall k :: 0 <= k < |WaitingRules| ==> !Matches(WaitingRules[k], lower))
      && (forall k :: 0 <= k < |WorkingRules| ==> !Matches(WorkingRules[k], lower))) ==> NextState(current, lower) == current
  {
    AnyMatchesIff(WaitingRules, lower);
    AnyMatchesIff(WorkingRules, lower);
  }

  /** The index of the first rule of the table that matches, or `|rules|`: the `for … of`
      loop with `break`. */
  method FirstMatch(rules: seq<Rule>, s: string) returns (k: nat)
    ensures k <= |rules|
    ensures k < |rules| ==> Matches(rules[k], s)
    ensures forall j :: 0 <= j < k ==> !Matches(rules[j], s)
  {
    k := 0;
    while k < |rules|
      invariant k <= |rules|
      invariant forall j :: 0 <= j < k ==> !Matches(rules[j], s)
    {
      if Matches(rules[k], s) {
        break;
      }
      k := k + 1;
    }
  }

  /** The two scans of `detectState` (server.js:352-387): a working rule sets the new
      state to "working", and a waiting rule then overrides it with "waiting"; when
      neither matches the state stays as it was. */
  method Classify(current: string, lower: string) returns (next: string)
    ensures next == NextState(current, lower)
  {
    AnyMatchesIff(WorkingRules, lower);
    AnyMatchesIff(WaitingRules, lower);
    next := current;
    var k := FirstMatch(WorkingRules, lower);
    if k < |WorkingRules| {
      next := WorkingState;
    }
    k := FirstMatch(WaitingRules, lower);
    if k < |WaitingRules| {
      next := WaitingState;
    }
  }

  /** `c\s*$` matches exactly when the text with its trailing white space removed ends
      with `c`. */
  lemma EndsWithIffTrimmedEnd(c: char, s: string)
    requires !IsSpace(c)
    ensures Matches(EndsWith(c), s) <==> TrimEnd(s) != [] && TrimEnd(s)[|TrimEnd(s)| - 1] == c
  {
    var t := TrimEnd(s);
    TrimEndDrops(s);
    if t != [] && t[|t| - 1] == c {
      assert s[|t| - 1] == c;
      assert s[|t|..] == s[|t| - 1 + 1..];
      assert RuleAt(EndsWith(c), s, |t| - 1);
    }
    forall i | |t| <= i < |s|
      ensures s[i] != c
    {
      assert s[i] == s[|t|..][i - |t|];
    }
    forall i | 0 <= i < |t| - 1
      ensures !RuleAt(EndsWith(c), s, i)
    {
      assert s[|t| - 1] == s[i + 1..][|t| - 2 - i];
    }
  }
}
