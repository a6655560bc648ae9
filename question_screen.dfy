/**
  The question screen's logic (`ClaudeQuestionScreen`,
  mobile/src/components/ClaudeQuestionScreen.js): the highlighted menu entry, moved
  cyclically by the arrow keys and reset when a new menu arrives, and the context text
  shown above the question.
*/
module QuestionScreen {
  import opened Wrappers
  import opened Text
  import opened Question

  /** The index above `i` in a cyclic menu of `n` entries: the updater `handleArrowUp`
      passes to `setSelectedIndex` (ClaudeQuestionScreen.js:15). */
  function Up(i: nat, n: nat): nat
    requires i < n
  {
    if i == 0 then n - 1 else i - 1
  }

  /** The index below `i` in a cyclic menu of `n` entries: the updater `handleArrowDown`
      passes to `setSelectedIndex` (ClaudeQuestionScreen.js:22). */
  function Down(i: nat, n: nat): nat
    requires i < n
  {
    if i == n - 1 then 0 else i + 1
  }

  /** Both moves are steps around a circle of `n` entries: they stay in range, and agree
      with adding or subtracting one modulo `n`. */
  lemma MovesAreModular(i: nat, n: nat)
    requires i < n
    ensures Up(i, n) < n && Down(i, n) < n
    ensures Up(i, n) == (i + n - 1) % n
    ensures Down(i, n) == (i + 1) % n
  {
    if i == 0 {
      assert (n - 1) % n == n - 1;
    } else {
      assert (i + n - 1) % n == ((i - 1) + n) % n == i - 1;
    }
  }

  /** Up then down, or down then up, leaves the highlight where it was. */
  lemma UpDownCancel(i: nat, n: nat)
    requires i < n
    ensures Down(Up(i, n), n) == i
    ensures Up(Down(i, n), n) == i
  {
  }

  /** `k` moves down from `i`. */
  function DownTimes(i: nat, n: nat, k: nat): (r: nat)
    requires i < n
    ensures r < n
  {
    if k == 0 then i else Down(DownTimes(i, n, k - 1), n)
  }

  /** A positive multiple of `n` is at least `n`. */
  lemma {:induction false} MultipleAtLeast(a: int, n: int)
    requires a >= 1 && n > 0
    ensures a * n >= n
  {
    if a > 1 {
      MultipleAtLeast(a - 1, n);
      assert a * n == (a - 1) * n + n;
    }
  }

  /** The remainder of `q * n + r` by `n`, for `0 <= r < n`, is `r`. */
  lemma RemainderOf(x: int, n: int, q: int, r: int)
    requires n > 0 && 0 <= r < n && x == q * n + r
    ensures x % n == r
  {
    var q', r' := x / n, x % n;
    var d := q - q';
    assert d * n == r' - r by {
      assert d * n == q * n - q' * n;
    }
    if d >= 1 {
      MultipleAtLeast(d, n);
      assert false;
    } else if d <= -1 {
      MultipleAtLeast(-d, n);
      assert false;
    }
  }

  /** Adding one after reducing is the same as reducing after adding one. */
  lemma RemainderOfSuccessor(x: nat, n: nat)
    requires n > 0
    ensures (x % n + 1) % n == (x + 1) % n
  {
    var q, r := x / n, x % n;
    if r + 1 < n {
      RemainderOf(x + 1, n, q, r + 1);
      RemainderOf(r + 1, n, 0, r + 1);
    } else {
      RemainderOf(x + 1, n, q + 1, 0);
      RemainderOf(r + 1, n, 1, 0);
    }
  }

  /** After `k` moves down the highlight is `k` entries further, wrapping around; so
      `n` moves bring it back to where it started. */
  lemma {:induction false} DownTimesWraps(i: nat, n: nat, k: nat)
    requires i < n
    ensures DownTimes(i, n, k) == (i + k) % n
  {
    if k > 0 {
      DownTimesWraps(i, n, k - 1);
      var j := DownTimes(i, n, k - 1);
      MovesAreModular(j, n);
      RemainderOfSuccessor(i + k - 1, n);
    }
  }

  /** An arrow key forwarded to the terminal. */
  datatype Key = ArrowUp | ArrowDown

  /** The screen's `selectedIndex` state with the menu it indexes. */
  class MenuCursor {
    var options: Option<seq<MenuOption>>
    var selectedIndex: nat
    /** The `onArrowUp` / `onArrowDown` callbacks invoked, in order. */
    var forwarded: seq<Key>

    /** With a non-empty menu the highlight is one of its entries; without one it is 0. */
    ghost predicate Valid() reads this {
      if options.Some? && |options.value| > 0 then selectedIndex < |options.value| else selectedIndex == 0
    }

    /** `useState(0)` (ClaudeQuestionScreen.js:6). */
    constructor (options: Option<seq<MenuOption>>)
      ensures Valid()
      ensures this.options == options && selectedIndex == 0 && forwarded == []
    {
      this.options := options;
      selectedIndex := 0;
      forwarded := [];
    }

    /** A new menu arrives: the effect resets the highlight to the first entry
        (ClaudeQuestionScreen.js:9-11). */
    method OptionsChanged(newOptions: Option<seq<MenuOption>>)
      requires Valid()
      modifies this`options, this`selectedIndex
      ensures Valid()
      ensures options == newOptions && selectedIndex == 0
    {
      options := newOptions;
      selectedIndex := 0;
    }

    /** `handleArrowUp` (ClaudeQuestionScreen.js:13-18): with a non-empty menu the
        highlight moves up, wrapping from the first entry to the last; the key is
        forwarded in every case. */
    method HandleArrowUp()
      requires Valid()
      modifies this`selectedIndex, this`forwarded
      ensures Valid()
      ensures options.Some? && |options.value| > 0 ==> selectedIndex == Up(old(selectedIndex), |options.value|)
      ensures !(options.Some? && |options.value| > 0) ==> selectedIndex == old(selectedIndex)
      ensures forwarded == old(forwarded) + [ArrowUp]
    {
      if options.Some? && |options.value| > 0 {
        selectedIndex := if selectedIndex == 0 then |options.value| - 1 else selectedIndex - 1;
      }
      forwarded := forwarded + [ArrowUp];
    }

    /** `handleArrowDown` (ClaudeQuestionScreen.js:20-25): with a non-empty menu the
        highlight moves down, wrapping from the last entry to the first; the key is
        forwarded in every case. */
    method HandleArrowDown()
      requires Valid()
      modifies this`selectedIndex, this`forwarded
      ensures Valid()
      ensures options.Some? && |options.value| > 0 ==> selectedIndex == Down(old(selectedIndex), |options.value|)
      ensures !(options.Some? && |options.value| > 0) ==> selectedIndex == old(selectedIndex)
      ensures forwarded == old(forwarded) + [ArrowDown]
    {
      if options.Some? && |options.value| > 0 {
        selectedIndex := if selectedIndex == |options.value| - 1 then 0 else selectedIndex + 1;
      }
      forwarded := forwarded + [ArrowDown];
    }
  }

  /** JavaScript truthiness of an optional string: present and not empty. */
  predicate Truthy(s: Option<string>) {
    s.Some? && s.value != []
  }

  /** `getContext()` (ClaudeQuestionScreen.js:28-35): the trimmed text before the first
      occurrence of the question, when it is longer than 10 characters. */
  function GetContext(rawText: Option<string>, question: Option<string>): Option<string> {
    if !Truthy(rawText) || !Truthy(question) then None
    else
      var at := IndexOf(rawText.value, question.value);
      if at <= 0 then None
      else
        var context := Trim(rawText.value[..at]);
        if |context| > 10 then Some(context) else None
  }

  /** The context is the text in front of the question's first occurrence, without the
      white space around it, and longer than 10 characters; and whenever such a text
      exists it is the context. A question that is missing, absent from the text or at
      its very start has none. */
  lemma GetContextIsTextBeforeQuestion(rawText: Option<string>, question: Option<string>)
    ensures GetContext(rawText, question).Some? ==>
      && Truthy(rawText) && Truthy(question)
      && var c := GetContext(rawText, question).value;
        exists p :: 0 < p <= |rawText.value| && OccursAt(rawText.value, question.value, p)
          && (forall j :: 0 <= j < p ==> !OccursAt(rawText.value, question.value, j))
          && |c| > 10 && c == Trim(rawText.value[..p])
          && exists a, b :: rawText.value[..p] == a + c + b && AllSpace(a) && AllSpace(b)
    ensures Truthy(rawText) && Truthy(question) ==>
      forall p :: 0 < p <= |rawText.value| && OccursAt(rawText.value, question.value, p)
        && (forall j :: 0 <= j < p ==> !OccursAt(rawText.value, question.value, j))
        && |Trim(rawText.value[..p])| > 10
        ==> GetContext(rawText, question) == Some(Trim(rawText.value[..p]))
    ensures Truthy(rawText) && Truthy(question) && OccursAt(rawText.value, question.value, 0) ==>
      GetContext(rawText, question) == None
    ensures Truthy(rawText) && Truthy(question) && (forall j :: 0 <= j <= |rawText.value| ==> !OccursAt(rawText.value, question.value, j)) ==>
      GetContext(rawText, question) == None
  {
    if GetContext(rawText, question).Some? {
      var at := IndexOf(rawText.value, question.value);
      TrimKeepsMiddle(rawText.value[..at]);
    }
  }
}
