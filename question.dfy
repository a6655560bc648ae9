/**
  The relay's question and menu extractor (`parseQuestion`, server/src/server.js:266-321).
  From the classifier window it takes the question, the numbered menu options and the
  text it read them from. The regular expressions of the source are written out as
  predicates over the pieces they match, and the functions that compute the matches are
  proved to agree with them.
*/
module Question {
  import opened Wrappers
  import opened Text
  import opened Csi

  /** The selection cursor glyph `❯` (U+276F). */
  const Cursor: char := '\U{276F}'

  /** One menu option, `{number, title, description, selected}`. */
  datatype MenuOption = MenuOption(number: nat, title: string, description: Option<string>, selected: bool)

  /** The result of `parseQuestion`: `options` is `None` rather than an empty list. */
  datatype Parsed = Parsed(question: Option<string>, options: Option<seq<MenuOption>>, rawText: string)

  /** Where `^\s*(❯)?\s*(\d+)[\.\)]\s+(.+)$` matched one line: the end of the leading
      white space, whether the cursor group matched, the digits `line[digitsStart..digitsEnd]`
      and the start of the title group, which runs to the end of the line. */
  datatype OptionMatch = OptionMatch(spaceEnd: nat, selected: bool, digitsStart: nat, digitsEnd: nat, titleStart: nat)

  /** What the source keeps of a match (server.js:288-290): the number, the trimmed title
      and whether the cursor group matched. */
  datatype OptionHead = OptionHead(number: nat, title: string, selected: bool)

  predicate NoLineTerminator(s: string) {
    forall i :: 0 <= i < |s| ==> !IsLineTerminator(s[i])
  }

  /** `s[from..]` holds no line terminator. */
  predicate NoLineTerminatorFrom(s: string, from: nat) {
    forall i :: from <= i < |s| ==> !IsLineTerminator(s[i])
  }

  /** The text of the optional cursor group. */
  function CursorIf(selected: bool): string {
    if selected then [Cursor] else []
  }

  // ---------------------------------------------------------------------------------------
  // One option line
  // ---------------------------------------------------------------------------------------

  /** What `^\s*(❯)?\s*(\d+)[\.\)]\s+(.+)$` asks of each piece: white space, the
      optional cursor, white space, the digits, `.` or `)`, at least one white space
      character, and a non-empty rest that a `.` can match character by character. */
  predicate Pieces(w1: string, w2: string, digits: string, sep: char, gap: string, rest: string) {
    && AllSpace(w1) && AllSpace(w2)
    && digits != [] && AllDigits(digits)
    && IsSeparator(sep)
    && gap != [] && AllSpace(gap)
    && rest != [] && NoLineTerminator(rest)
  }

  /** `line` is cut into the pieces the option pattern reads. */
  predicate OptionShape(line: string, w1: string, selected: bool, w2: string, digits: string, sep: char, gap: string, rest: string) {
    && line == w1 + (CursorIf(selected) + (w2 + (digits + ([sep] + (gap + rest)))))
    && Pieces(w1, w2, digits, sep, gap, rest)
  }

  /** The pieces of `line == w1 + c + w2 + digits + [sep] + gap + rest`, slice by slice. */
  predicate LaidOut(line: string, w1: string, c: string, w2: string, digits: string, sep: char, gap: string, rest: string) {
    var a := |w1| + |c|;
    var p := a + |w2|;
    var q := p + |digits|;
    var g := q + 1 + |gap|;
    && |line| == g + |rest|
    && line[..|w1|] == w1 && line[|w1|..a] == c && line[a..p] == w2 && line[p..q] == digits
    && line[q] == sep && line[q + 1..g] == gap && line[g..] == rest
  }

  /** The positions `m` cut `line` into the pieces of the option shape. */
  predicate MatchedAt(line: string, m: OptionMatch) {
    && m.digitsStart >= m.spaceEnd + (if m.selected then 1 else 0)
    && m.digitsStart < m.digitsEnd && m.digitsEnd + 1 < m.titleStart < |line|
    && (forall j :: 0 <= j < m.spaceEnd ==> IsSpace(line[j]))
    && (m.selected ==> line[m.spaceEnd] == Cursor)
    && (forall j :: m.spaceEnd + (if m.selected then 1 else 0) <= j < m.digitsStart ==> IsSpace(line[j]))
    && (forall j :: m.digitsStart <= j < m.digitsEnd ==> IsDigit(line[j]))
    && IsSeparator(line[m.digitsEnd])
    && (forall j :: m.digitsEnd + 1 <= j < m.titleStart ==> IsSpace(line[j]))
    && NoLineTerminatorFrom(line, m.titleStart)
  }

  /** `\s+(.+)$` from `from`: where the title group starts. The greedy `\s+` takes all the
      white space unless that leaves nothing for `(.+)`, in which case it gives back its
      last character. */
  function TitleStart(line: string, from: nat): (t: Option<nat>)
    requires from <= |line|
    ensures t.Some? ==> from < t.value < |line|
    ensures t.Some? ==> (forall j :: from <= j < t.value ==> IsSpace(line[j])) && NoLineTerminatorFrom(line, t.value)
  {
    var k := RunEnd(line, from, Space);
    RunEndSpan(line, from, Space);
    if k == from then None
    else if k < |line| then (if NoLineTerminatorFrom(line, k) then Some(k) else None)
    else if k >= from + 2 && !IsLineTerminator(line[k - 1]) then Some(k - 1)
    else None
  }

  /** `line.match(/^\s*(❯)?\s*(\d+)[\.\)]\s+(.+)$/)` (server.js:285): the positions of the
      match, which cut the line into the pieces of the option shape. */
  function MatchOption(line: string): (r: Option<OptionMatch>)
    ensures r.Some? ==> MatchedAt(line, r.value)
  {
    var w1 := RunEnd(line, 0, Space);
    var selected := w1 < |line| && line[w1] == Cursor;
    var w2 := RunEnd(line, if selected then w1 + 1 else w1, Space);
    var d := RunEnd(line, w2, Digits);
    RunEndSpan(line, 0, Space);
    RunEndSpan(line, if selected then w1 + 1 else w1, Space);
    RunEndSpan(line, w2, Digits);
    if d == w2 || d == |line| || !IsSeparator(line[d]) then None
    else
      match TitleStart(line, d + 1)
      case None => None
      case Some(t) => Some(OptionMatch(w1, selected, w2, d, t))
  }

  /** The option head the source builds from a match (server.js:288-290): `parseInt` of the
      digits and the title group trimmed. */
  function HeadOf(line: string, m: OptionMatch): OptionHead
    requires m.digitsStart <= m.digitsEnd <= m.titleStart <= |line|
  {
    OptionHead(ValueOf(line[m.digitsStart..m.digitsEnd], Decimal), Trim(line[m.titleStart..]), m.selected)
  }

  /** One line read as an option, or `None`. */
  function ReadOption(line: string): Option<OptionHead> {
    match MatchOption(line)
    case None => None
    case Some(m) => Some(HeadOf(line, m))
  }

  /** Where the two parts of `s[n..] == a + b` sit in `s`. */
  lemma Peel(s: string, n: nat, a: string, b: string)
    requires n <= |s| && s[n..] == a + b
    ensures n + |a| <= |s| && s[n + |a|..] == b && s[n..n + |a|] == a
  {
    assert s[n + |a|..] == s[n..][|a|..];
    assert s[n..n + |a|] == s[n..][..|a|];
  }

  /** A string that starts with `n` white space characters has a white-space run of at
      least `n`. */
  lemma {:induction false} RunEndFrom(r: string, i: nat, n: nat)
    requires i <= n <= |r|
    requires forall j :: i <= j < n ==> IsSpace(r[j])
    ensures RunEnd(r, i, Space) >= n
    decreases n - i
  {
    if i < n {
      RunEndFrom(r, i + 1, n);
    }
  }

  /** After at least one white space character, a non-empty rest on one line is read as
      the title, and the title group trims to the rest trimmed. */
  lemma TitleStartComplete(line: string, from: nat, g: nat)
    requires from < g < |line|
    requires forall j :: from <= j < g ==> IsSpace(line[j])
    requires NoLineTerminatorFrom(line, g)
    ensures TitleStart(line, from).Some?
    ensures Trim(line[TitleStart(line, from).value..]) == Trim(line[g..])
  {
    RunEndFrom(line, from, g);
    RunEndSpan(line, from, Space);
    var k := RunEnd(line, from, Space);
    if k < |line| {
      assert line[g..] == line[g..k] + line[k..];
      TrimAfterSpace(line[g..k], line[k..]);
    } else {
      TrimEmptyIffAllSpace(line[g..]);
      TrimEmptyIffAllSpace(line[k - 1..]);
    }
  }

  /** A digit is neither white space nor the cursor. */
  lemma DigitIsPlain(c: char)
    requires IsDigit(c)
    ensures !IsSpace(c) && c != Cursor && !IsSeparator(c)
  {
  }

  /** Where the pieces of `line == w1 + c + w2 + digits + [sep] + gap + rest` sit. */
  lemma ShapeCuts(line: string, w1: string, c: string, w2: string, digits: string, sep: char, gap: string, rest: string)
    requires line == w1 + (c + (w2 + (digits + ([sep] + (gap + rest)))))
    ensures LaidOut(line, w1, c, w2, digits, sep, gap, rest)
  {
    var a := |w1| + |c|;
    var p := a + |w2|;
    var q := p + |digits|;
    var g := q + 1 + |gap|;
    assert line[0..] == line;
    Peel2(line, 0, w1, c, w2 + (digits + ([sep] + (gap + rest))));
    Peel2(line, a, w2, digits, [sep] + (gap + rest));
    Peel2(line, q, [sep], gap, rest);
    LaidOutAt(line, w1, c, w2, digits, sep, gap, rest, a, p, q, g);
  }

  /** Two pieces peeled off the front of `s[n..]`. */
  lemma Peel2(s: string, n: nat, x: string, y: string, r: string)
    requires n <= |s| && s[n..] == x + (y + r)
    ensures n + |x| + |y| <= |s|
    ensures s[n..n + |x|] == x && s[n + |x|..n + |x| + |y|] == y && s[n + |x| + |y|..] == r
  {
    Peel(s, n, x, y + r);
    Peel(s, n + |x|, y, r);
  }

  /** `LaidOut`, from the positions where the pieces begin. */
  lemma LaidOutAt(line: string, w1: string, c: string, w2: string, digits: string, sep: char, gap: string, rest: string, a: nat, p: nat, q: nat, g: nat)
    requires a == |w1| + |c| && p == a + |w2| && q == p + |digits| && g == q + 1 + |gap| && g <= |line|
    requires line[0..|w1|] == w1 && line[|w1|..a] == c && line[a..p] == w2 && line[p..q] == digits
    requires line[q..q + 1] == [sep] && line[q + 1..g] == gap && line[g..] == rest
    ensures LaidOut(line, w1, c, w2, digits, sep, gap, rest)
  {
    assert line[..|w1|] == line[0..|w1|];
    assert line[q] == line[q..q + 1][0];
  }


  /** The characters of a slice whose characters are all of class `k`. */
  lemma SliceSpan(s: string, i: nat, j: nat, w: string, k: CharClass)
    requires i <= j <= |s| && s[i..j] == w && AllIn(w, k)
    ensures forall x :: i <= x < j ==> InClass(s[x], k)
  {
    assert forall x :: i <= x < j ==> s[x] == w[x - i];
  }

  /** The positions where the pieces of a line of the option shape begin and end, from
      the slices the pieces occupy. */
  lemma PiecePositions(line: string, selected: bool, e1: nat, a: nat, p: nat, q: nat)
    requires e1 <= a <= p < q < |line|
    requires AllIn(line[..e1], Space) && line[e1..a] == CursorIf(selected) && AllIn(line[a..p], Space)
    requires AllIn(line[p..q], Digits) && IsSeparator(line[q])
    ensures var s := if selected then e1 else p;
      && RunEnd(line, 0, Space) == s
      && (s < |line| && line[s] == Cursor) == selected
      && RunEnd(line, if selected then s + 1 else s, Space) == p
      && RunEnd(line, p, Digits) == q
  {
    SliceSpan(line, 0, e1, line[..e1], Space);
    SliceSpan(line, a, p, line[a..p], Space);
    SliceSpan(line, p, q, line[p..q], Digits);
    assert line[..e1] == line[0..e1];
    assert IsDigit(line[p]) by { assert line[p] == line[p..q][0]; }
    DigitIsPlain(line[p]);
    assert !IsDigit(line[q]);
    RunEndIs(line, p, q, Digits);
    if selected {
      assert line[e1] == line[e1..a][0];
      RunEndIs(line, 0, e1, Space);
      RunEndIs(line, a, p, Space);
    } else {
      assert a == e1;
      assert forall x :: 0 <= x < p ==> IsSpace(line[x]);
      RunEndIs(line, 0, p, Space);
    }
  }

  /** The rest after the title's white space holds no line terminator. */
  lemma RestOnOneLine(line: string, t: nat, rest: string)
    requires t <= |line| && line[t..] == rest && NoLineTerminator(rest)
    ensures NoLineTerminatorFrom(line, t)
  {
    assert forall j :: t <= j < |line| ==> line[j] == rest[j - t];
  }

  /** Where the runs end where `MatchOption` looks and a title starts after the
      separator, the match is made of those positions. */
  lemma MatchAt(line: string, e1: nat, selected: bool, p: nat, q: nat, t: nat)
    requires RunEnd(line, 0, Space) == e1
    requires (e1 < |line| && line[e1] == Cursor) == selected
    requires p < q < |line| && RunEnd(line, if selected then e1 + 1 else e1, Space) == p
    requires RunEnd(line, p, Digits) == q && IsSeparator(line[q])
    requires TitleStart(line, q + 1) == Some(t)
    ensures MatchOption(line) == Some(OptionMatch(e1, selected, p, q, t))
  {
  }

  /** A line whose runs end where `MatchOption` looks is read as an option: the digits
      between `p` and `q`, the title from `g` on, trimmed. */
  lemma ReadAt(line: string, e1: nat, selected: bool, p: nat, q: nat, g: nat)
    requires RunEnd(line, 0, Space) == e1
    requires (e1 < |line| && line[e1] == Cursor) == selected
    requires p < q && RunEnd(line, if selected then e1 + 1 else e1, Space) == p
    requires q + 1 < g < |line| && RunEnd(line, p, Digits) == q && IsSeparator(line[q])
    requires forall j :: q + 1 <= j < g ==> IsSpace(line[j])
    requires NoLineTerminatorFrom(line, g)
    ensures ReadOption(line) == Some(OptionHead(ValueOf(line[p..q], Decimal), Trim(line[g..]), selected))
  {
    TitleStartComplete(line, q + 1, g);
    var t := TitleStart(line, q + 1).value;
    var m := OptionMatch(e1, selected, p, q, t);
    MatchAt(line, e1, selected, p, q, t);
    assert ReadOption(line) == Some(HeadOf(line, m));
  }

  /** A line laid out in the pieces of the option pattern is read as an option. */
  lemma ReadPieces(line: string, w1: string, selected: bool, w2: string, digits: string, sep: char, gap: string, rest: string)
    requires LaidOut(line, w1, CursorIf(selected), w2, digits, sep, gap, rest)
    requires Pieces(w1, w2, digits, sep, gap, rest)
    ensures ReadOption(line) == Some(OptionHead(ValueOf(digits, Decimal), Trim(rest), selected))
  {
    var a := |w1| + |CursorIf(selected)|;
    var p := a + |w2|;
    var q := p + |digits|;
    var g := q + 1 + |gap|;
    PiecePositions(line, selected, |w1|, a, p, q);
    SliceSpan(line, q + 1, g, gap, Space);
    RestOnOneLine(line, g, rest);
    ReadAt(line, if selected then |w1| else p, selected, p, q, g);
  }

  /** Every line of the option shape is read as an option, with the number, title and
      cursor flag its pieces give. */
  lemma MatchOptionComplete(line: string, w1: string, selected: bool, w2: string, digits: string, sep: char, gap: string, rest: string)
    requires OptionShape(line, w1, selected, w2, digits, sep, gap, rest)
    ensures ReadOption(line) == Some(OptionHead(ValueOf(digits, Decimal), Trim(rest), selected))
  {
    ShapeCuts(line, w1, CursorIf(selected), w2, digits, sep, gap, rest);
    ReadPieces(line, w1, selected, w2, digits, sep, gap, rest);
  }

  /** `s[i..]` is `s[i..j]` followed by `s[j..]`. */
  lemma Cut(s: string, i: nat, j: nat)
    requires i <= j <= |s|
    ensures s[i..] == s[i..j] + s[j..]
  {
  }

  /** A line is the concatenation of its pieces between the cut points. */
  lemma CutIntoPieces(line: string, e1: nat, a: nat, ds: nat, de: nat, t: nat)
    requires e1 <= a <= ds <= de && de + 1 <= t <= |line|
    ensures line == line[..e1] + (line[e1..a] + (line[a..ds] + (line[ds..de] + ([line[de]] + (line[de + 1..t] + line[t..])))))
  {
    var t5 := line[de + 1..t] + line[t..];
    assert t5 == line[de + 1..] by { Cut(line, de + 1, t); }
    var t4 := [line[de]] + t5;
    assert t4 == line[de..] by { Cut(line, de, de + 1); assert line[de..de + 1] == [line[de]]; }
    var t3 := line[ds..de] + t4;
    assert t3 == line[ds..] by { Cut(line, ds, de); }
    var t2 := line[a..ds] + t3;
    assert t2 == line[a..] by { Cut(line, a, ds); }
    var t1 := line[e1..a] + t2;
    assert t1 == line[e1..] by { Cut(line, e1, a); }
    assert line[..e1] + t1 == line by { Cut(line, 0, e1); assert line[..e1] == line[0..e1] && line[0..] == line; }
  }

  /** The characters between two positions, as a string. */
  lemma SliceHolds(line: string, i: nat, j: nat, k: CharClass)
    requires i <= j <= |line|
    requires forall x :: i <= x < j ==> InClass(line[x], k)
    ensures AllIn(line[i..j], k)
  {
  }

  /** The slices between the positions of a match are the pieces the pattern asks for. */
  lemma PiecesOfMatch(line: string, m: OptionMatch)
    requires MatchedAt(line, m)
    ensures var a := m.spaceEnd + (if m.selected then 1 else 0);
      && line[m.spaceEnd..a] == CursorIf(m.selected)
      && Pieces(line[..m.spaceEnd], line[a..m.digitsStart], line[m.digitsStart..m.digitsEnd],
        line[m.digitsEnd], line[m.digitsEnd + 1..m.titleStart], line[m.titleStart..])
  {
    var a := m.spaceEnd + (if m.selected then 1 else 0);
    assert line[m.spaceEnd..a] == CursorIf(m.selected);
    SliceHolds(line, 0, m.spaceEnd, Space);
    SliceHolds(line, a, m.digitsStart, Space);
    SliceHolds(line, m.digitsStart, m.digitsEnd, Digits);
    SliceHolds(line, m.digitsEnd + 1, m.titleStart, Space);
    assert line[..m.spaceEnd] == line[0..m.spaceEnd];
    assert NoLineTerminator(line[m.titleStart..]);
  }

  /** A line cut at positions where the pattern's pieces begin and end has the option
      shape. */
  lemma ShapeOfMatch(line: string, m: OptionMatch)
    requires MatchedAt(line, m)
    ensures var a := m.spaceEnd + (if m.selected then 1 else 0);
      OptionShape(line, line[..m.spaceEnd], m.selected, line[a..m.digitsStart], line[m.digitsStart..m.digitsEnd],
        line[m.digitsEnd], line[m.digitsEnd + 1..m.titleStart], line[m.titleStart..])
  {
    PiecesOfMatch(line, m);
    ShapeOfCuts(line, m.spaceEnd, m.selected, m.spaceEnd + (if m.selected then 1 else 0), m.digitsStart, m.digitsEnd, m.titleStart);
  }

  /** Pieces cut at increasing positions make up the line. */
  lemma ShapeOfCuts(line: string, e1: nat, selected: bool, a: nat, ds: nat, de: nat, t: nat)
    requires e1 <= a <= ds <= de && de + 1 <= t <= |line|
    requires line[e1..a] == CursorIf(selected)
    requires Pieces(line[..e1], line[a..ds], line[ds..de], line[de], line[de + 1..t], line[t..])
    ensures OptionShape(line, line[..e1], selected, line[a..ds], line[ds..de], line[de], line[de + 1..t], line[t..])
  {
    CutIntoPieces(line, e1, a, ds, de, t);
  }

  /** Every line that is read as an option has the option shape, and the option is read
      off its pieces. */
  lemma MatchOptionSound(line: string)
    requires ReadOption(line).Some?
    ensures exists w1, selected, w2, digits, sep, gap, rest ::
      && OptionShape(line, w1, selected, w2, digits, sep, gap, rest)
      && ReadOption(line) == Some(OptionHead(ValueOf(digits, Decimal), Trim(rest), selected))
  {
    var m := MatchOption(line).value;
    ShapeOfMatch(line, m);
  }

  // ---------------------------------------------------------------------------------------
  // The description line
  // ---------------------------------------------------------------------------------------

  /** `s.match(/^(❯)?\s*\d+[\.\)]/)` on a trimmed line (server.js:297): it starts like an
      option. */
  predicate LooksLikeOption(s: string) {
    var a := if |s| > 0 && s[0] == Cursor then 1 else 0;
    var w := RunEnd(s, a, Space);
    var d := RunEnd(s, w, Digits);
    w < d < |s| && IsSeparator(s[d])
  }

  /** A string whose slices are the optional cursor, white space, digits and a separator
      looks like an option. */
  lemma LooksAt(s: string, selected: bool, a: nat, p: nat, q: nat)
    requires a <= p < q < |s| && s[..a] == CursorIf(selected)
    requires AllIn(s[a..p], Space) && AllIn(s[p..q], Digits) && IsSeparator(s[q])
    ensures LooksLikeOption(s)
  {
    SliceSpan(s, a, p, s[a..p], Space);
    SliceSpan(s, p, q, s[p..q], Digits);
    assert IsDigit(s[p]) by { assert s[p] == s[p..q][0]; }
    DigitIsPlain(s[p]);
    assert !IsDigit(s[q]);
    if selected {
      assert s[0] == s[..a][0];
    } else if a < p {
      assert IsSpace(s[0]);
    }
    RunEndIs(s, a, p, Space);
    RunEndIs(s, p, q, Digits);
  }

  /** A line that starts with the cursor (optionally), white space, digits and `.` or `)`
      looks like an option. */
  lemma LooksLikeOptionComplete(s: string, selected: bool, w: string, digits: string, sep: char, tail: string)
    requires s == CursorIf(selected) + (w + (digits + ([sep] + tail)))
    requires AllSpace(w) && digits != [] && AllDigits(digits) && IsSeparator(sep)
    ensures LooksLikeOption(s)
  {
    var c := CursorIf(selected);
    var a := |c|;
    var p := a + |w|;
    var q := p + |digits|;
    assert s[0..] == s;
    Peel2(s, 0, c, w, digits + ([sep] + tail));
    Peel2(s, p, digits, [sep], tail);
    LooksFrom(s, selected, w, digits, sep, a, p, q);
  }

  /** `LooksAt`, from the slices the pieces occupy. */
  lemma LooksFrom(s: string, selected: bool, w: string, digits: string, sep: char, a: nat, p: nat, q: nat)
    requires a == |CursorIf(selected)| && p == a + |w| && q == p + |digits| && q + 1 <= |s|
    requires s[0..a] == CursorIf(selected) && s[a..p] == w && s[p..q] == digits && s[q..q + 1] == [sep]
    requires AllSpace(w) && digits != [] && AllDigits(digits) && IsSeparator(sep)
    ensures LooksLikeOption(s)
  {
    assert s[..a] == s[0..a];
    assert s[q] == s[q..q + 1][0];
    assert AllIn(s[a..p], Space) && AllIn(s[p..q], Digits);
    LooksAt(s, selected, a, p, q);
  }

  /** Conversely, a line that looks like an option starts with the cursor (optionally),
      white space, at least one digit and `.` or `)`. */
  lemma LooksLikeOptionSound(s: string)
    requires LooksLikeOption(s)
    ensures exists selected: bool, a: nat, p: nat, q: nat ::
      && a <= p < q < |s| && s[..a] == CursorIf(selected)
      && AllIn(s[a..p], Space) && AllIn(s[p..q], Digits) && IsSeparator(s[q])
  {
    var selected := |s| > 0 && s[0] == Cursor;
    var a := if selected then 1 else 0;
    var p := RunEnd(s, a, Space);
    var q := RunEnd(s, p, Digits);
    RunEndSpan(s, a, Space);
    RunEndSpan(s, p, Digits);
    SliceHolds(s, a, p, Space);
    SliceHolds(s, p, q, Digits);
    assert s[..a] == CursorIf(selected);
  }


  /** The description of the option on line `i` (server.js:292-300): the next line,
      trimmed, when it is not empty and does not look like an option itself. */
  function Description(lines: seq<string>, i: nat): (r: Option<string>)
    requires i < |lines|
    ensures r.Some? <==> i + 1 < |lines| && Trim(lines[i + 1]) != [] && !LooksLikeOption(Trim(lines[i + 1]))
    ensures r.Some? ==> r.value == Trim(lines[i + 1])
  {
    if i + 1 < |lines| then
      var next := Trim(lines[i + 1]);
      if next != [] && !LooksLikeOption(next) then Some(next) else None
    else None
  }

  // ---------------------------------------------------------------------------------------
  // The option list
  // ---------------------------------------------------------------------------------------

  /** What the option pattern reads on each line. */
  function Heads(lines: seq<string>): (heads: seq<Option<OptionHead>>)
    ensures |heads| == |lines|
    ensures forall j :: 0 <= j < |lines| ==> heads[j] == ReadOption(lines[j])
  {
    seq(|lines|, j requires 0 <= j < |lines| => ReadOption(lines[j]))
  }

  /** The option built from line `j`, which matches. */
  function OptionOf(lines: seq<string>, heads: seq<Option<OptionHead>>, j: nat): MenuOption
    requires |heads| == |lines| && j < |lines| && heads[j].Some?
  {
    var h := heads[j].value;
    MenuOption(h.number, h.title, Description(lines, j), h.selected)
  }

  /** The number of matching lines in `heads[i..j]`. */
  function MatchCount(heads: seq<Option<OptionHead>>, i: nat, j: nat): nat
    requires i <= j <= |heads|
    decreases j - i
  {
    if i == j then 0
    else (if heads[i].Some? then 1 else 0) + MatchCount(heads, i + 1, j)
  }

  /** The `for` loop over the lines (server.js:282-309): one option per matching line,
      in line order. */
  function OptionsFrom(lines: seq<string>, heads: seq<Option<OptionHead>>, i: nat): (r: seq<MenuOption>)
    requires |heads| == |lines| && i <= |lines|
    ensures |r| <= |lines| - i
    ensures r == [] <==> forall j :: i <= j < |lines| ==> heads[j].None?
    decreases |lines| - i
  {
    if i == |lines| then []
    else if heads[i].Some? then [OptionOf(lines, heads, i)] + OptionsFrom(lines, heads, i + 1)
    else OptionsFrom(lines, heads, i + 1)
  }

  /** The options are exactly the matching lines, in order: there are as many as there
      are matching lines, and the option of the `n`-th matching line is at position `n`. */
  lemma {:induction false} OptionsAreTheMatchingLines(lines: seq<string>, heads: seq<Option<OptionHead>>, i: nat)
    requires |heads| == |lines| && i <= |lines|
    ensures |OptionsFrom(lines, heads, i)| == MatchCount(heads, i, |lines|)
    ensures forall j :: i <= j < |lines| && heads[j].Some? ==>
      MatchCount(heads, i, j) < |OptionsFrom(lines, heads, i)| && OptionsFrom(lines, heads, i)[MatchCount(heads, i, j)] == OptionOf(lines, heads, j)
    decreases |lines| - i
  {
    if i < |lines| {
      OptionsAreTheMatchingLines(lines, heads, i + 1);
      forall j | i <= j < |lines| && heads[j].Some?
        ensures MatchCount(heads, i, j) < |OptionsFrom(lines, heads, i)| && OptionsFrom(lines, heads, i)[MatchCount(heads, i, j)] == OptionOf(lines, heads, j)
      {
        if j > i {
          MatchCountSplit(heads, i, j);
        }
      }
    }
  }

  lemma MatchCountSplit(heads: seq<Option<OptionHead>>, i: nat, j: nat)
    requires i < j <= |heads|
    ensures MatchCount(heads, i, j) == (if heads[i].Some? then 1 else 0) + MatchCount(heads, i + 1, j)
  {
  }

  // ---------------------------------------------------------------------------------------
  // The question
  // ---------------------------------------------------------------------------------------

  /** `stripped.match(/([^\n]*\?[^\n]*)/)[1].trim()` (server.js:271-272): the leftmost match
      is a whole line, the first one that holds a `?`. */
  function FirstQuestionLine(lines: seq<string>, i: nat): (r: Option<string>)
    requires i <= |lines|
    decreases |lines| - i
  {
    if i == |lines| then None
    else if '?' in lines[i] then Some(Trim(lines[i]))
    else FirstQuestionLine(lines, i + 1)
  }

  /** The question line is the first line with a `?`, trimmed, and there is one exactly
      when some line holds a `?`. */
  lemma {:induction false} FirstQuestionLineIsFirst(lines: seq<string>, i: nat)
    requires i <= |lines|
    ensures FirstQuestionLine(lines, i).None? <==> forall j :: i <= j < |lines| ==> '?' !in lines[j]
    ensures FirstQuestionLine(lines, i).Some? ==>
      exists j :: i <= j < |lines| && '?' in lines[j] && FirstQuestionLine(lines, i).value == Trim(lines[j])
        && forall k :: i <= k < j ==> '?' !in lines[k]
    decreases |lines| - i
  {
    if i < |lines| {
      if '?' in lines[i] {
        assert FirstQuestionLine(lines, i) == Some(Trim(lines[i]));
      } else {
        FirstQuestionLineIsFirst(lines, i + 1);
        assert FirstQuestionLine(lines, i) == FirstQuestionLine(lines, i + 1);
        if FirstQuestionLine(lines, i).Some? {
          var j :| i + 1 <= j < |lines| && '?' in lines[j] && FirstQuestionLine(lines, i + 1).value == Trim(lines[j])
            && forall k :: i + 1 <= k < j ==> '?' !in lines[k];
          assert forall k :: i <= k < j ==> '?' !in lines[k];
        }
      }
    }
  }

  /** The phrase of `/What would you like[^\n]*\?/i`, in lower case. */
  const Greeting := "what would you like"

  /** The phrase starts at `p`, letters compared without regard to ASCII case. */
  predicate GreetingAt(s: string, p: nat) {
    p + |Greeting| <= |s| && ToLower(s[p..p + |Greeting|]) == Greeting
  }

  /** `/What would you like[^\n]*\?/i` matches `s[p..q + 1]`. */
  predicate GreetingMatch(s: string, p: nat, q: nat) {
    && GreetingAt(s, p)
    && p + |Greeting| <= q < |s| && s[q] == '?'
    && forall k :: p + |Greeting| <= k < q ==> s[k] != '\n'
  }

  /** The last `c` in `s[lo..hi]`, or -1. */
  function LastIndexOfChar(s: string, c: char, lo: nat, hi: nat): (r: int)
    requires lo <= hi <= |s|
    ensures r == -1 ==> forall k :: lo <= k < hi ==> s[k] != c
    ensures r != -1 ==> lo <= r < hi && s[r] == c && forall k :: r < k < hi ==> s[k] != c
    decreases hi - lo
  {
    if hi == lo then -1
    else if s[hi - 1] == c then hi - 1
    else LastIndexOfChar(s, c, lo, hi - 1)
  }

  /** The leftmost match of `/What would you like[^\n]*\?/i` starting at or after `p`
      (server.js:275): at the first start that has a `?` later on its line, up to the last
      `?` of that line. */
  function GreetingFrom(s: string, p: nat): Option<string>
    requires p <= |s|
    decreases |s| - p
  {
    if p + |Greeting| > |s| then None
    else if GreetingAt(s, p) then
      var e := IndexOfChar(s, '\n', p + |Greeting|);
      var q := LastIndexOfChar(s, '?', p + |Greeting|, e);
      if q >= 0 then Some(s[p..q + 1]) else GreetingFrom(s, p + 1)
    else GreetingFrom(s, p + 1)
  }

  /** No match of the phrase starts at `p` when its line has no `?` after it. */
  lemma NoGreetingMatchAt(s: string, p: nat)
    requires p + |Greeting| <= |s|
    requires !GreetingAt(s, p) || LastIndexOfChar(s, '?', p + |Greeting|, IndexOfChar(s, '\n', p + |Greeting|)) == -1
    ensures forall q: nat :: !GreetingMatch(s, p, q)
  {
    var e := IndexOfChar(s, '\n', p + |Greeting|);
    forall q: nat ensures !GreetingMatch(s, p, q) {
      if GreetingAt(s, p) && p + |Greeting| <= q < |s| && e <= q {
        assert s[e] == '\n' && p + |Greeting| <= e;
      }
    }
  }

  /** When the phrase's line has a `?` after it, the match from `p` runs to the last one. */
  lemma LongestGreetingAt(s: string, p: nat)
    requires GreetingAt(s, p)
    requires LastIndexOfChar(s, '?', p + |Greeting|, IndexOfChar(s, '\n', p + |Greeting|)) >= 0
    ensures var q := LastIndexOfChar(s, '?', p + |Greeting|, IndexOfChar(s, '\n', p + |Greeting|));
      && GreetingMatch(s, p, q)
      && forall q' :: q < q' ==> !GreetingMatch(s, p, q')
  {
    var e := IndexOfChar(s, '\n', p + |Greeting|);
    var q := LastIndexOfChar(s, '?', p + |Greeting|, e);
    forall q' | q < q' ensures !GreetingMatch(s, p, q') {
      if e <= q' < |s| {
        assert s[e] == '\n' && p + |Greeting| <= e;
      }
    }
  }

  /** Without a greeting match, no start has a `?` later on its line. */
  lemma {:induction false} GreetingFromNoneSound(s: string, p: nat)
    requires p <= |s| && GreetingFrom(s, p).None?
    ensures forall p': nat, q: nat :: p <= p' ==> !GreetingMatch(s, p', q)
    decreases |s| - p
  {
    if p + |Greeting| <= |s| {
      NoGreetingMatchAt(s, p);
      GreetingFromNoneSound(s, p + 1);
    }
  }

  /** There is no greeting match exactly when no start has a `?` later on its line. */
  lemma GreetingFromNone(s: string, p: nat)
    requires p <= |s|
    ensures GreetingFrom(s, p).None? <==> forall p': nat, q: nat :: p <= p' ==> !GreetingMatch(s, p', q)
  {
    if GreetingFrom(s, p).None? {
      GreetingFromNoneSound(s, p);
    } else {
      GreetingFromIsLeftmostLongest(s, p);
    }
  }

  /** The greeting match is the leftmost one, and the longest from its start. */
  lemma {:induction false} GreetingFromIsLeftmostLongest(s: string, p: nat)
    requires p <= |s|
    ensures GreetingFrom(s, p).Some? ==> exists p': nat, q: nat ::
      && p <= p' && GreetingMatch(s, p', q) && GreetingFrom(s, p).value == s[p'..q + 1]
      && (forall q': nat :: q < q' ==> !GreetingMatch(s, p', q'))
      && (forall p'': nat, q': nat :: p <= p'' < p' ==> !GreetingMatch(s, p'', q'))
    decreases |s| - p
  {
    if p + |Greeting| > |s| {
    } else if GreetingAt(s, p) && LastIndexOfChar(s, '?', p + |Greeting|, IndexOfChar(s, '\n', p + |Greeting|)) >= 0 {
      LongestGreetingAt(s, p);
    } else if GreetingFrom(s, p + 1).Some? {
      NoGreetingMatchAt(s, p);
      GreetingFromIsLeftmostLongest(s, p + 1);
      var p': nat, q: nat :| && p + 1 <= p' && GreetingMatch(s, p', q) && GreetingFrom(s, p + 1).value == s[p'..q + 1]
        && (forall q': nat :: q < q' ==> !GreetingMatch(s, p', q'))
        && (forall p'': nat, q': nat :: p + 1 <= p'' < p' ==> !GreetingMatch(s, p'', q'));
      assert forall q': nat :: !GreetingMatch(s, p, q');
    }
  }

  // ---------------------------------------------------------------------------------------
  // parseQuestion
  // ---------------------------------------------------------------------------------------

  /** The text the extractor reads (server.js:268): control sequences and `\r` removed. */
  function StripQuestionText(text: string): (r: string)
    ensures '\r' !in r
    ensures |r| <= |text|
    ensures ESC !in text ==> r == Without(text, '\r')
    ensures CountOf(r, '\n') == CountOf(text, '\n')
  {
    var stripped := Strip(QuestionCodes, text);
    StripKeepsCount(QuestionCodes, text, '\n');
    WithoutKeepsCounts(stripped, '\r', '\n');
    if ESC in text then Without(stripped, '\r')
    else StripKeepsPlainText(QuestionCodes, text); Without(stripped, '\r')
  }

  /** The question (server.js:271-276): the greeting match when there is one, and
      otherwise the first line with a `?`, trimmed. */
  function QuestionOf(s: string): Option<string> {
    if GreetingFrom(s, 0).Some? then GreetingFrom(s, 0) else FirstQuestionLine(Split(s, '\n'), 0)
  }

  /** The question is the leftmost greeting match, longest from its start, when the text
      has one; otherwise it is the first line with a `?`, and there is none when no line
      has a `?`. */
  lemma QuestionOfIsTheMatch(s: string)
    ensures (exists p: nat, q: nat :: GreetingMatch(s, p, q)) ==> exists p: nat, q: nat ::
      && GreetingMatch(s, p, q) && QuestionOf(s) == Some(s[p..q + 1])
      && (forall q': nat :: q < q' ==> !GreetingMatch(s, p, q'))
      && (forall p': nat, q': nat :: p' < p ==> !GreetingMatch(s, p', q'))
    ensures (forall p: nat, q: nat :: !GreetingMatch(s, p, q)) ==> QuestionOf(s) == FirstQuestionLine(Split(s, '\n'), 0)
  {
    GreetingFromNone(s, 0);
    GreetingFromIsLeftmostLongest(s, 0);
  }

  /** The options (server.js:279-309 and 318): `None` when no line matches the option
      pattern. */
  function OptionsOf(lines: seq<string>): (r: Option<seq<MenuOption>>)
    ensures r != Some([])
  {
    var options := OptionsFrom(lines, Heads(lines), 0);
    if options == [] then None else Some(options)
  }

  /** There are options exactly when some line matches the option pattern, and then they
      are the matching lines in order, each with the description its next line gives. */
  lemma OptionsOfLines(lines: seq<string>)
    ensures OptionsOf(lines).None? <==> forall j :: 0 <= j < |lines| ==> ReadOption(lines[j]).None?
    ensures OptionsOf(lines).Some? ==>
      var o := OptionsOf(lines).value;
      && |o| == MatchCount(Heads(lines), 0, |lines|)
      && forall j :: 0 <= j < |lines| && ReadOption(lines[j]).Some? ==>
        MatchCount(Heads(lines), 0, j) < |o| && o[MatchCount(Heads(lines), 0, j)] == OptionOf(lines, Heads(lines), j)
  {
    OptionsAreTheMatchingLines(lines, Heads(lines), 0);
  }

  /** `parseQuestion(text)` (server.js:266-321): the text without control sequences and
      carriage returns, the question read from it and the options read from its lines. */
  function ParseQuestion(text: string): (r: Parsed)
    ensures r.rawText == StripQuestionText(text)
    ensures r.question == QuestionOf(r.rawText)
    ensures r.options == OptionsOf(Split(r.rawText, '\n'))
    ensures '\r' !in r.rawText && r.options != Some([])
  {
    var stripped := StripQuestionText(text);
    Parsed(QuestionOf(stripped), OptionsOf(Split(stripped, '\n')), stripped)
  }
}
