/**
  The handful of JavaScript string operations the relay and the mobile client rely on
  (`trim`, `parseInt`, `split('\n')`, `indexOf`, `slice(-n)`, `join('')`, `\s`, `\d`), written out
  over `seq<char>`.
*/
module Text {
  import opened Wrappers

  /** JavaScript's WhiteSpace and LineTerminator code points: what `\s` matches and what
      `trim` removes. */
  predicate IsSpace(c: char) {
    || c == '\t' || c == '\n' || c == '\U{000B}' || c == '\U{000C}' || c == '\r' || c == ' '
    || c == '\U{00A0}' || c == '\U{1680}' || ('\U{2000}' <= c <= '\U{200A}')
    || c == '\U{2028}' || c == '\U{2029}' || c == '\U{202F}' || c == '\U{205F}'
    || c == '\U{3000}' || c == '\U{FEFF}'
  }

  /** The characters a regular-expression `.` does not match. */
  predicate IsLineTerminator(c: char) {
    c == '\n' || c == '\r' || c == '\U{2028}' || c == '\U{2029}'
  }

  /** `\d` */
  predicate IsDigit(c: char) { '0' <= c <= '9' }

  /** `[\.\)]`, the separator after a menu number. */
  predicate IsSeparator(c: char) { c == '.' || c == ')' }

  /** `[a-zA-Z]` */
  predicate IsAsciiLetter(c: char) { 'a' <= c <= 'z' || 'A' <= c <= 'Z' }

  predicate AllSpace(s: string) {
    forall i :: 0 <= i < |s| ==> IsSpace(s[i])
  }

  function LowerChar(c: char): char {
    if 'A' <= c <= 'Z' then (c as int + 32) as char else c
  }

  /** `toLowerCase`, on the ASCII letters. */
  function ToLower(s: string): (r: string)
    ensures |r| == |s|
    ensures forall i :: 0 <= i < |r| ==> !('A' <= r[i] <= 'Z')
    ensures forall i :: 0 <= i < |s| && 'A' <= s[i] <= 'Z' ==> r[i] as int == s[i] as int + 32
    ensures forall i :: 0 <= i < |s| && !('A' <= s[i] <= 'Z') ==> r[i] == s[i]
  {
    seq(|s|, i requires 0 <= i < |s| => LowerChar(s[i]))
  }

  /** The character classes of the regular expressions in the source. */
  datatype CharClass =
    | Space             // \s
    | Digits            // \d, [0-9]
    | HexDigits         // [0-9a-fA-F]
    | DigitsSemi        // [0-9;]
    | DigitsSemiQuery   // [0-9;?]
    | Letters           // [a-zA-Z]
    | CursorFinals      // [A-DFHJKST]
    | MoveFinals        // [GHIJK]

  predicate InClass(c: char, k: CharClass) {
    match k
    case Space => IsSpace(c)
    case Digits => IsDigit(c)
    case HexDigits => IsDigit(c) || 'a' <= c <= 'f' || 'A' <= c <= 'F'
    case DigitsSemi => IsDigit(c) || c == ';'
    case DigitsSemiQuery => IsDigit(c) || c == ';' || c == '?'
    case Letters => IsAsciiLetter(c)
    case CursorFinals => c in "ABCDFHJKST"
    case MoveFinals => c in "GHIJK"
  }

  predicate AllIn(s: string, k: CharClass) {
    forall i :: 0 <= i < |s| ==> InClass(s[i], k)
  }

  /** The end of the longest run of characters of class `k` that starts at `i`: what a
      greedy `[class]*` consumes from `i`. */
  function RunEnd(s: string, i: nat, k: CharClass): (e: nat)
    requires i <= |s|
    ensures i <= e <= |s|
    decreases |s| - i
  {
    if i < |s| && InClass(s[i], k) then RunEnd(s, i + 1, k) else i
  }

  /** The run is maximal: every character in it is of class `k`, and the one after it,
      if any, is not. */
  lemma {:induction false} RunEndSpan(s: string, i: nat, k: CharClass)
    requires i <= |s|
    ensures forall j :: i <= j < RunEnd(s, i, k) ==> InClass(s[j], k)
    ensures RunEnd(s, i, k) == |s| || !InClass(s[RunEnd(s, i, k)], k)
    decreases |s| - i
  {
    if i < |s| && InClass(s[i], k) {
      RunEndSpan(s, i + 1, k);
    }
  }

  /** A run end is pinned down by the run's own characters and the one after it. */
  lemma RunEndIs(s: string, i: nat, e: nat, k: CharClass)
    requires i <= e <= |s|
    requires forall j :: i <= j < e ==> InClass(s[j], k)
    requires e == |s| || !InClass(s[e], k)
    ensures RunEnd(s, i, k) == e
    decreases e - i
  {
    if i < e {
      RunEndIs(s, i + 1, e, k);
    }
  }

  /** `trimStart`: the white space at the front removed. */
  function TrimStart(s: string): (r: string)
    ensures |r| <= |s|
    ensures r == [] || !IsSpace(r[0])
  {
    if s != [] && IsSpace(s[0]) then TrimStart(s[1..]) else s
  }

  /** `trimEnd`: the white space at the back removed. */
  function TrimEnd(s: string): (r: string)
    ensures |r| <= |s|
    ensures r == [] || !IsSpace(r[|r| - 1])
  {
    if s != [] && IsSpace(s[|s| - 1]) then TrimEnd(s[..|s| - 1]) else s
  }

  /** What `trimStart` removes is a run of white space in front of what it keeps. */
  lemma {:induction false} TrimStartDrops(s: string)
    ensures |TrimStart(s)| <= |s|
    ensures s == s[..|s| - |TrimStart(s)|] + TrimStart(s)
    ensures AllSpace(s[..|s| - |TrimStart(s)|])
  {
    if s != [] && IsSpace(s[0]) {
      TrimStartDrops(s[1..]);
      var n := |s| - |TrimStart(s)|;
      assert s[1..][..n - 1] == s[1..n];
      assert s[..n] == [s[0]] + s[1..n];
    }
  }

  /** What `trimEnd` removes is a run of white space behind what it keeps. */
  lemma {:induction false} TrimEndDrops(s: string)
    ensures |TrimEnd(s)| <= |s|
    ensures s == TrimEnd(s) + s[|TrimEnd(s)|..]
    ensures AllSpace(s[|TrimEnd(s)|..])
  {
    if s != [] && IsSpace(s[|s| - 1]) {
      var t := s[..|s| - 1];
      TrimEndDrops(t);
      var n := |TrimEnd(s)|;
      assert t[n..] + [s[|s| - 1]] == s[n..];
    }
  }

  /** `String.prototype.trim` */
  function Trim(s: string): (r: string)
    ensures |r| <= |s|
    ensures r == [] || (!IsSpace(r[0]) && !IsSpace(r[|r| - 1]))
  {
    var t := TrimStart(s);
    TrimEndDrops(t);
    assert TrimEnd(t) != [] ==> TrimEnd(t)[0] == t[0];
    TrimEnd(t)
  }

  /** Trimming removes white space only, and only at the two ends: the input is the result
      with a run of white space on either side. */
  lemma TrimKeepsMiddle(s: string)
    ensures exists a, b :: s == a + Trim(s) + b && AllSpace(a) && AllSpace(b)
  {
    var t := TrimStart(s);
    TrimStartDrops(s);
    TrimEndDrops(t);
    var m := TrimEnd(t);
    assert m == Trim(s);
    var a, b := s[..|s| - |t|], t[|m|..];
    assert s == a + t && t == m + b;
    assert a + (m + b) == a + m + b;
  }

  /** A string trims to nothing exactly when it is all white space. */
  lemma TrimEmptyIffAllSpace(s: string)
    ensures Trim(s) == [] <==> AllSpace(s)
  {
    var t := TrimStart(s);
    TrimStartDrops(s);
    TrimEndDrops(t);
    var a := s[..|s| - |t|];
    if Trim(s) == [] {
      assert |t| == 0;
      assert s == a;
    } else if t != [] {
      assert t[0] == s[|a|];
    }
  }

  /** White space in front of a string does not change where `trimStart` leaves it. */
  lemma {:induction false} TrimStartAfterSpace(a: string, x: string)
    requires AllSpace(a)
    ensures TrimStart(a + x) == TrimStart(x)
    decreases |a|
  {
    if a != [] {
      assert (a + x)[0] == a[0];
      assert (a + x)[1..] == a[1..] + x;
      TrimStartAfterSpace(a[1..], x);
    } else {
      assert a + x == x;
    }
  }

  /** White space in front of a string does not change what it trims to. */
  lemma TrimAfterSpace(a: string, x: string)
    requires AllSpace(a)
    ensures Trim(a + x) == Trim(x)
  {
    TrimStartAfterSpace(a, x);
  }

  /** The index of the first `c` at or after `i`, or `|s|` when there is none. */
  function IndexOfChar(s: string, c: char, i: nat): (k: nat)
    requires i <= |s|
    ensures i <= k <= |s|
    ensures forall j :: i <= j < k ==> s[j] != c
    ensures k < |s| ==> s[k] == c
    decreases |s| - i
  {
    if i == |s| || s[i] == c then i else IndexOfChar(s, c, i + 1)
  }

  /** A position that has no `c` before it from `i` on and holds `c` (or is the end) is
      the one `IndexOfChar` finds. */
  lemma FirstIndexOfChar(s: string, c: char, i: nat, j: nat)
    requires i <= j <= |s|
    requires forall k :: i <= k < j ==> s[k] != c
    requires j == |s| || s[j] == c
    ensures IndexOfChar(s, c, i) == j
  {
  }

  /** `s.split(sep)` for a one-character separator. */
  function Split(s: string, sep: char): (lines: seq<string>)
    ensures |lines| >= 1
    ensures forall k :: 0 <= k < |lines| ==> sep !in lines[k]
    decreases |s|
  {
    var k := IndexOfChar(s, sep, 0);
    if k == |s| then [s] else [s[..k]] + Split(s[k + 1..], sep)
  }

  /** `lines.join(sep)` */
  function Join(lines: seq<string>, sep: char): string
    requires |lines| >= 1
  {
    if |lines| == 1 then lines[0] else lines[0] + [sep] + Join(lines[1..], sep)
  }

  /** Splitting loses nothing: joining the pieces with the separator gives the input back. */
  lemma {:induction false} SplitJoin(s: string, sep: char)
    ensures Join(Split(s, sep), sep) == s
    decreases |s|
  {
    var k := IndexOfChar(s, sep, 0);
    if k < |s| {
      SplitJoin(s[k + 1..], sep);
      assert s == s[..k] + [sep] + s[k + 1..];
    }
  }

  /** Every element but `x`, in order: `s.replace(/c/g, '')` on a string, and
      `xs.filter(v => v !== x)` on an array. */
  function Without<T(==)>(xs: seq<T>, x: T): (r: seq<T>)
    ensures x !in r
    ensures |r| <= |xs|
    ensures x !in xs ==> r == xs
  {
    if xs == [] then []
    else (if xs[0] == x then [] else [xs[0]]) + Without(xs[1..], x)
  }

  /** The number of occurrences of `x` in `xs`. */
  function CountOf<T(==)>(xs: seq<T>, x: T): (n: nat)
    ensures n <= |xs|
  {
    if xs == [] then 0 else (if xs[0] == x then 1 else 0) + CountOf(xs[1..], x)
  }

  lemma {:induction false} CountOfAbsent<T>(xs: seq<T>, x: T)
    requires x !in xs
    ensures CountOf(xs, x) == 0
  {
    if xs != [] {
      assert forall k :: 0 <= k < |xs[1..]| ==> xs[1..][k] == xs[k + 1];
      CountOfAbsent(xs[1..], x);
    }
  }

  lemma {:induction false} CountOfAppend<T>(xs: seq<T>, ys: seq<T>, x: T)
    ensures CountOf(xs + ys, x) == CountOf(xs, x) + CountOf(ys, x)
  {
    if xs != [] {
      assert (xs + ys)[0] == xs[0];
      assert (xs + ys)[1..] == xs[1..] + ys;
      CountOfAppend(xs[1..], ys, x);
    } else {
      assert xs + ys == ys;
    }
  }

  /** Removal leaves the number of every other element unchanged. */
  lemma {:induction false} WithoutKeepsCounts<T>(xs: seq<T>, x: T, y: T)
    requires y != x
    ensures CountOf(Without(xs, x), y) == CountOf(xs, y)
  {
    if xs != [] {
      WithoutKeepsCounts(xs[1..], x, y);
      var head := if xs[0] == x then [] else [xs[0]];
      assert Without(xs, x) == head + Without(xs[1..], x);
      CountOfAppend(head, Without(xs[1..], x), y);
    }
  }

  /** Removal keeps exactly the other elements. */
  lemma {:induction false} WithoutMembers<T>(xs: seq<T>, x: T)
    ensures forall y :: y in Without(xs, x) <==> y in xs && y != x
  {
    if xs != [] {
      WithoutMembers(xs[1..], x);
      assert xs == [xs[0]] + xs[1..];
    }
  }

  /** Removal distributes over concatenation, so the elements kept stay in their order. */
  lemma {:induction false} WithoutAppend<T>(xs: seq<T>, ys: seq<T>, x: T)
    ensures Without(xs + ys, x) == Without(xs, x) + Without(ys, x)
  {
    if xs != [] {
      var h := if xs[0] == x then [] else [xs[0]];
      calc {
        Without(xs + ys, x);
        { assert (xs + ys)[0] == xs[0] && (xs + ys)[1..] == xs[1..] + ys; }
        h + Without(xs[1..] + ys, x);
        { WithoutAppend(xs[1..], ys, x); }
        h + (Without(xs[1..], x) + Without(ys, x));
        (h + Without(xs[1..], x)) + Without(ys, x);
        Without(xs, x) + Without(ys, x);
      }
    } else {
      assert xs + ys == ys;
    }
  }

  /** No element twice. */
  predicate Distinct<T(==)>(xs: seq<T>) {
    forall i, j :: 0 <= i < j < |xs| ==> xs[i] != xs[j]
  }

  /** Appending a new element to a sequence without repetitions leaves one without
      repetitions. */
  lemma AppendKeepsDistinct<T>(xs: seq<T>, x: T)
    requires Distinct(xs) && x !in xs
    ensures Distinct(xs + [x])
  {
    forall i, j | 0 <= i < j < |xs + [x]|
      ensures (xs + [x])[i] != (xs + [x])[j]
    {
      if j == |xs| {
        assert (xs + [x])[i] == xs[i];
      }
    }
  }

  /** Removal from a sequence without repetitions leaves one without repetitions. */
  lemma {:induction false} WithoutKeepsDistinct<T>(xs: seq<T>, x: T)
    requires Distinct(xs)
    ensures Distinct(Without(xs, x))
  {
    if xs != [] {
      WithoutKeepsDistinct(xs[1..], x);
      WithoutMembers(xs[1..], x);
      assert xs[0] !in xs[1..];
    }
  }

  /** `chunks.join('')` */
  function Concat(chunks: seq<string>): string {
    if chunks == [] then [] else Concat(chunks[..|chunks| - 1]) + chunks[|chunks| - 1]
  }

  lemma ConcatAppend(chunks: seq<string>, c: string)
    ensures Concat(chunks + [c]) == Concat(chunks) + c
  {
    assert (chunks + [c])[..|chunks|] == chunks;
  }

  /** `xs.slice(-n)` for a positive `n`: the last `n` elements, or all of them. */
  function Suffix<T>(xs: seq<T>, n: nat): (r: seq<T>)
    ensures |r| <= n && |r| <= |xs|
    ensures |xs| <= n ==> r == xs
    ensures |r| == n || r == xs
  {
    if |xs| > n then xs[|xs| - n..] else xs
  }

  /** The suffix is what is left after its own length is cut from the end. */
  lemma SuffixIsTail<T>(xs: seq<T>, n: nat)
    ensures xs == xs[..|xs| - |Suffix(xs, n)|] + Suffix(xs, n)
  {
  }

  /** Truncating, appending and truncating again is the same as appending and truncating
      once: the bounded window always equals the suffix of everything appended so far. */
  lemma SuffixOfSuffix<T>(a: seq<T>, b: seq<T>, n: nat)
    ensures Suffix(Suffix(a, n) + b, n) == Suffix(a + b, n)
  {
    var sa := Suffix(a, n);
    if |a| > n {
      assert a + b == a[..|a| - n] + (sa + b);
    }
  }

  /** `s` occurs in `text` at position `i`. */
  predicate OccursAt(text: string, sub: string, i: nat) {
    i + |sub| <= |text| && text[i..i + |sub|] == sub
  }

  /** `text.indexOf(sub)`: the first position where `sub` occurs, or -1. */
  function IndexOf(text: string, sub: string): (r: int)
    ensures -1 <= r <= |text|
    ensures r >= 0 ==> OccursAt(text, sub, r) && forall i :: 0 <= i < r ==> !OccursAt(text, sub, i)
    ensures r == -1 ==> forall i :: 0 <= i <= |text| ==> !OccursAt(text, sub, i)
  {
    IndexOfFrom(text, sub, 0)
  }

  function IndexOfFrom(text: string, sub: string, i: nat): (r: int)
    requires i <= |text|
    ensures r == -1 || i <= r <= |text|
    ensures r >= 0 ==> OccursAt(text, sub, r) && forall j :: i <= j < r ==> !OccursAt(text, sub, j)
    ensures r == -1 ==> forall j :: i <= j <= |text| ==> !OccursAt(text, sub, j)
    decreases |text| - i
  {
    if OccursAt(text, sub, i) then i
    else if i == |text| then -1
    else IndexOfFrom(text, sub, i + 1)
  }

  function DigitValue(c: char): nat {
    if IsDigit(c) then c as nat - '0' as nat
    else if 'a' <= c <= 'f' then c as nat - 'a' as nat + 10
    else if 'A' <= c <= 'F' then c as nat - 'A' as nat + 10
    else 0
  }

  /** The two radixes `parseInt` reads without a radix argument. */
  datatype Radix = Decimal | Hexadecimal

  /** The value of a string of digits in the given radix. */
  function ValueOf(digits: string, radix: Radix): nat {
    if digits == [] then 0
    else
      var high := ValueOf(digits[..|digits| - 1], radix);
      (if radix == Hexadecimal then high * 16 else high * 10) + DigitValue(digits[|digits| - 1])
  }

  /** `parseInt(s)` with no radix argument; `None` stands for `NaN`. Leading white space is
      skipped, one sign is read, a `0x`/`0X` prefix selects radix 16, and the longest
      prefix of digits of that radix is converted; no digits at all gives `NaN`. */
  function ParseInt(s: string): Option<int> {
    var t := TrimStart(s);
    var negative := |t| > 0 && t[0] == '-';
    var u := if |t| > 0 && (t[0] == '-' || t[0] == '+') then t[1..] else t;
    var hex := |u| >= 2 && u[0] == '0' && (u[1] == 'x' || u[1] == 'X');
    var radix := if hex then Hexadecimal else Decimal;
    var v := if hex then u[2..] else u;
    var z := if hex then v[..RunEnd(v, 0, HexDigits)] else v[..RunEnd(v, 0, Digits)];
    if z == [] then None
    else Some(if negative then -(ValueOf(z, radix) as int) else ValueOf(z, radix) as int)
  }

  predicate AllDigits(s: string) {
    forall i :: 0 <= i < |s| ==> IsDigit(s[i])
  }

  /** `parseInt` reads the leading decimal integer of a code and ignores what follows it
      (unless the code is `0x…`, which it reads as hexadecimal). */
  lemma ParseIntReadsLeadingInteger(d: string, rest: string)
    requires d != [] && AllDigits(d)
    requires rest == [] || (!IsDigit(rest[0]) && !(d == "0" && rest[0] in "xX"))
    ensures ParseInt(d + rest) == Some(ValueOf(d, Decimal) as int)
  {
    var s := d + rest;
    assert !IsSpace(s[0]);
    assert TrimStart(s) == s;
    var e := RunEnd(s, 0, Digits);
    assert forall i :: 0 <= i < |d| ==> s[i] == d[i];
    if rest != [] {
      assert s[|d|] == rest[0];
    }
    RunEndIs(s, 0, |d|, Digits);
    assert s[..e] == d;
  }
}
