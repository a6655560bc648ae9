/**
  The mobile client's colour-run splitter (`parseAnsiText`): it strips cursor and mode
  sequences, then scans for `ESC [ … m` (Select Graphic Rendition, ECMA-48 section 8.3.117)
  and cuts the remaining text into runs of one colour each.
*/
module AnsiText {
  import opened Wrappers
  import opened Text
  import opened Csi

  const White := "#FFFFFF"

  /** One coloured run of text, `{text, color}`. */
  datatype Part = Part(text: string, color: string)

  /** The values of `ANSI_COLORS`. */
  const Palette: set<string> := {
    "#000000", "#FF0000", "#00FF00", "#FFFF00", "#0000FF", "#FF00FF", "#00FFFF", "#FFFFFF",
    "#808080", "#FF8080", "#80FF80", "#FFFF80", "#8080FF", "#FF80FF", "#80FFFF",
    "#FFA500", "#D77757"
  }

  /** `ANSI_COLORS[n]` for a number `n`: the standard and bright foreground colours. */
  function NumericColor(n: int): (r: Option<string>)
    ensures r.Some? ==> r.value in Palette
  {
    match n
    case 30 => Some("#000000")
    case 31 => Some("#FF0000")
    case 32 => Some("#00FF00")
    case 33 => Some("#FFFF00")
    case 34 => Some("#0000FF")
    case 35 => Some("#FF00FF")
    case 36 => Some("#00FFFF")
    case 37 => Some("#FFFFFF")
    case 90 => Some("#808080")
    case 91 => Some("#FF8080")
    case 92 => Some("#80FF80")
    case 93 => Some("#FFFF80")
    case 94 => Some("#8080FF")
    case 95 => Some("#FF80FF")
    case 96 => Some("#80FFFF")
    case 97 => Some("#FFFFFF")
    case _ => None
  }

  /** `ANSI_COLORS[code]` for a string key: the two 24-bit orange shades. */
  function TrueColor(code: string): (r: Option<string>)
    ensures r.Some? ==> r.value in Palette
  {
    if code == "38;2;255;165;0" then Some("#FFA500")
    else if code == "38;2;215;119;87" then Some("#D77757")
    else None
  }

  /** The colour after the code between `ESC [` and `m` (AnsiText.js:61-71): a `38;2;…`
      code is looked up as a whole, `0` resets to white, anything else is looked up by its
      leading integer; a code the table does not know leaves the colour as it was. */
  function ApplyCode(color: string, code: string): (r: string)
    ensures code == "0" ==> r == White
    ensures r == color || r in Palette
  {
    if |code| >= 5 && code[..5] == "38;2;" then
      match TrueColor(code)
      case Some(c) => c
      case None => color
    else if code == "0" then White
    else
      match ParseInt(code)
      case None => color
      case Some(n) =>
        match NumericColor(n)
        case Some(c) => c
        case None => color
  }

  /** A code either leaves the colour as it was or sets it outright: the colour it sets
      does not depend on the colour before it. */
  lemma ApplyCodeSetsOrKeeps(c1: string, c2: string, code: string)
    ensures ApplyCode(c1, code) == c1 || ApplyCode(c1, code) == ApplyCode(c2, code)
  {
  }

  /** A code that is not `0` and not a `38;2;` code is looked up by the integer its leading
      digits spell, whatever follows them; a number the table lacks keeps the colour. */
  lemma ApplyCodeReadsLeadingInteger(color: string, d: string, rest: string)
    requires d != [] && AllDigits(d)
    requires rest == [] || (!IsDigit(rest[0]) && !(d == "0" && rest[0] in "xX"))
    requires d + rest != "0"
    requires !(|d + rest| >= 5 && (d + rest)[..5] == "38;2;")
    ensures NumericColor(ValueOf(d, Decimal)).Some? ==> ApplyCode(color, d + rest) == NumericColor(ValueOf(d, Decimal)).value
    ensures NumericColor(ValueOf(d, Decimal)).None? ==> ApplyCode(color, d + rest) == color
  {
    ParseIntReadsLeadingInteger(d, rest);
  }

  /** The four clean-up replaces of AnsiText.js:33-37, in order. */
  function Clean(text: string): string {
    Strip(MoreMoves, Strip(EqualsModes, Strip(CursorMoves, Strip(PrivateModes, text))))
  }

  /** What the scanner sees at a position of the cleaned text. */
  /** `s[i..]` starts with `ESC [`. */
  predicate EscapeAt(s: string, i: nat) {
    i + 1 < |s| && s[i] == ESC && s[i + 1] == '['
  }

  /** The text left when every `ESC [` … first following `m` span is removed; an `ESC [`
      with no `m` after it is kept as ordinary text. */
  function Visible(s: string, i: nat): string
    requires i <= |s|
    decreases |s| - i
  {
    if i == |s| then []
    else if EscapeAt(s, i) && IndexOfChar(s, 'm', i + 2) < |s| then
      Visible(s, IndexOfChar(s, 'm', i + 2) + 1)
    else [s[i]] + Visible(s, i + 1)
  }

  /** The pending run, as a part, if it holds any text. */
  function Flush(buffer: string, color: string): seq<Part> {
    if buffer == [] then [] else [Part(buffer, color)]
  }

  /** The runs the rest of the cleaned text `s[i..]` produces, given the current colour, the
      pending run and the rule `recolor` that turns a colour and a code into the next
      colour: an `ESC [ code m` closes the run and applies the code; an `ESC [` with no `m`
      after it closes the run and starts a new one with the ESC; any other character
      extends the run. The colour rule is a parameter so that what the scan does to the
      text is stated independently of the colour table. */
  function Render(s: string, i: nat, color: string, buffer: string, recolor: (string, string) -> string): seq<Part>
    requires i <= |s|
    decreases |s| - i
  {
    if i == |s| then Flush(buffer, color)
    else if EscapeAt(s, i) then
      var j := IndexOfChar(s, 'm', i + 2);
      if j < |s| then Flush(buffer, color) + Render(s, j + 1, recolor(color, s[i + 2..j]), [], recolor)
      else Flush(buffer, color) + Render(s, i + 1, color, [s[i]], recolor)
    else Render(s, i + 1, color, buffer + [s[i]], recolor)
  }

  /** The texts of the parts, concatenated. */
  function Texts(parts: seq<Part>): string {
    if parts == [] then [] else parts[0].text + Texts(parts[1..])
  }

  lemma {:induction false} TextsAppend(a: seq<Part>, b: seq<Part>)
    ensures Texts(a + b) == Texts(a) + Texts(b)
  {
    if a == [] {
      assert a + b == b;
    } else {
      assert (a + b)[0] == a[0];
      assert (a + b)[1..] == a[1..] + b;
      TextsAppend(a[1..], b);
    }
  }

  lemma TextsOfFlush(buffer: string, color: string)
    ensures Texts(Flush(buffer, color)) == buffer
  {
    if buffer != [] {
      assert Flush(buffer, color)[1..] == [];
    }
  }

  lemma TextsOfFlushThen(buffer: string, color: string, rest: seq<Part>)
    ensures Texts(Flush(buffer, color) + rest) == buffer + Texts(rest)
  {
    TextsOfFlush(buffer, color);
    TextsAppend(Flush(buffer, color), rest);
  }

  /** No part is empty. */
  lemma {:induction false} RenderHasNoEmptyPart(s: string, i: nat, color: string, buffer: string, recolor: (string, string) -> string)
    requires i <= |s|
    ensures forall k :: 0 <= k < |Render(s, i, color, buffer, recolor)| ==> Render(s, i, color, buffer, recolor)[k].text != []
    decreases |s| - i
  {
    if i < |s| {
      if EscapeAt(s, i) {
        var j := IndexOfChar(s, 'm', i + 2);
        if j < |s| {
          RenderHasNoEmptyPart(s, j + 1, recolor(color, s[i + 2..j]), [], recolor);
        } else {
          RenderHasNoEmptyPart(s, i + 1, color, [s[i]], recolor);
        }
      } else {
        RenderHasNoEmptyPart(s, i + 1, color, buffer + [s[i]], recolor);
      }
    }
  }

  /** Every part has a colour of the table when the starting colour is one and the colour
      rule never leaves the table. */
  lemma {:induction false} RenderUsesPalette(s: string, i: nat, color: string, buffer: string, recolor: (string, string) -> string)
    requires i <= |s|
    requires color in Palette
    requires forall c, code :: c in Palette ==> recolor(c, code) in Palette
    ensures forall k :: 0 <= k < |Render(s, i, color, buffer, recolor)| ==> Render(s, i, color, buffer, recolor)[k].color in Palette
    decreases |s| - i
  {
    if i < |s| {
      if EscapeAt(s, i) {
        var j := IndexOfChar(s, 'm', i + 2);
        if j < |s| {
          RenderUsesPalette(s, j + 1, recolor(color, s[i + 2..j]), [], recolor);
        } else {
          RenderUsesPalette(s, i + 1, color, [s[i]], recolor);
        }
      } else {
        RenderUsesPalette(s, i + 1, color, buffer + [s[i]], recolor);
      }
    }
  }

  /** The scan steps over a complete `ESC [ code m` at `i`. */
  lemma RenderAtCode(s: string, i: nat, j: nat, color: string, buffer: string, recolor: (string, string) -> string)
    requires EscapeAt(s, i) && j == IndexOfChar(s, 'm', i + 2) && j < |s|
    ensures Render(s, i, color, buffer, recolor) == Flush(buffer, color) + Render(s, j + 1, recolor(color, s[i + 2..j]), [], recolor)
  {
    assert i < |s|;
  }

  lemma VisibleAtCode(s: string, i: nat, j: nat)
    requires EscapeAt(s, i) && j == IndexOfChar(s, 'm', i + 2) && j < |s|
    ensures Visible(s, i) == Visible(s, j + 1)
  {
  }

  /** The scan steps over an `ESC [` at `i` that has no `m` after it. */
  lemma RenderAtLoneEscape(s: string, i: nat, color: string, buffer: string, recolor: (string, string) -> string)
    requires EscapeAt(s, i) && IndexOfChar(s, 'm', i + 2) == |s|
    ensures Render(s, i, color, buffer, recolor) == Flush(buffer, color) + Render(s, i + 1, color, [s[i]], recolor)
    ensures Visible(s, i) == [s[i]] + Visible(s, i + 1)
  {
  }

  /** The scan steps over an ordinary character at `i`. */
  lemma RenderAtChar(s: string, i: nat, color: string, buffer: string, recolor: (string, string) -> string)
    requires i < |s| && !EscapeAt(s, i)
    ensures Render(s, i, color, buffer, recolor) == Render(s, i + 1, color, buffer + [s[i]], recolor)
    ensures Visible(s, i) == [s[i]] + Visible(s, i + 1)
  {
  }

  lemma KeepsVisibleAtCode(s: string, i: nat, j: nat, color: string, buffer: string, recolor: (string, string) -> string)
    requires EscapeAt(s, i) && j == IndexOfChar(s, 'm', i + 2) && j < |s|
    requires Texts(Render(s, j + 1, recolor(color, s[i + 2..j]), [], recolor)) == Visible(s, j + 1)
    ensures Texts(Render(s, i, color, buffer, recolor)) == buffer + Visible(s, i)
  {
    RenderAtCode(s, i, j, color, buffer, recolor);
    VisibleAtCode(s, i, j);
    TextsOfFlushThen(buffer, color, Render(s, j + 1, recolor(color, s[i + 2..j]), [], recolor));
  }

  lemma KeepsVisibleAtLoneEscape(s: string, i: nat, color: string, buffer: string, recolor: (string, string) -> string)
    requires EscapeAt(s, i) && IndexOfChar(s, 'm', i + 2) == |s|
    requires Texts(Render(s, i + 1, color, [s[i]], recolor)) == [s[i]] + Visible(s, i + 1)
    ensures Texts(Render(s, i, color, buffer, recolor)) == buffer + Visible(s, i)
  {
    RenderAtLoneEscape(s, i, color, buffer, recolor);
    TextsOfFlushThen(buffer, color, Render(s, i + 1, color, [s[i]], recolor));
    assert buffer + ([s[i]] + Visible(s, i + 1)) == buffer + [s[i]] + Visible(s, i + 1);
  }

  lemma KeepsVisibleAtChar(s: string, i: nat, color: string, buffer: string, recolor: (string, string) -> string)
    requires i < |s| && !EscapeAt(s, i)
    requires Texts(Render(s, i + 1, color, buffer + [s[i]], recolor)) == buffer + [s[i]] + Visible(s, i + 1)
    ensures Texts(Render(s, i, color, buffer, recolor)) == buffer + Visible(s, i)
  {
    RenderAtChar(s, i, color, buffer, recolor);
    assert (buffer + [s[i]]) + Visible(s, i + 1) == buffer + ([s[i]] + Visible(s, i + 1));
  }

  /** The parts carry exactly the pending run followed by the visible text: nothing but the
      complete colour codes is dropped, and nothing is reordered. */
  lemma {:induction false} RenderKeepsVisibleText(s: string, i: nat, color: string, buffer: string, recolor: (string, string) -> string)
    requires i <= |s|
    ensures Texts(Render(s, i, color, buffer, recolor)) == buffer + Visible(s, i)
    decreases |s| - i
  {
    if i == |s| {
      TextsOfFlush(buffer, color);
    } else if EscapeAt(s, i) {
      var j := IndexOfChar(s, 'm', i + 2);
      if j < |s| {
        RenderKeepsVisibleText(s, j + 1, recolor(color, s[i + 2..j]), [], recolor);
        KeepsVisibleAtCode(s, i, j, color, buffer, recolor);
      } else {
        RenderKeepsVisibleText(s, i + 1, color, [s[i]], recolor);
        KeepsVisibleAtLoneEscape(s, i, color, buffer, recolor);
      }
    } else {
      RenderKeepsVisibleText(s, i + 1, color, buffer + [s[i]], recolor);
      KeepsVisibleAtChar(s, i, color, buffer, recolor);
    }
  }

  /** The inner loop of `parseAnsiText` (AnsiText.js:53-56): the first `m` from `start` on. */
  method FindCodeEnd(cleaned: string, start: nat) returns (j: nat)
    requires start <= |cleaned|
    ensures j == IndexOfChar(cleaned, 'm', start)
  {
    j := start;
    while j < |cleaned| && cleaned[j] != 'm'
      invariant start <= j <= |cleaned|
      invariant forall k :: start <= k < j ==> cleaned[k] != 'm'
      decreases |cleaned| - j
    {
      j := j + 1;
    }
    FirstIndexOfChar(cleaned, 'm', start, j);
  }

  /** Stepping over a complete code keeps `parts + rest == target`. */
  lemma StepCode(s: string, i: nat, j: nat, color: string, buffer: string, parts: seq<Part>, target: seq<Part>, recolor: (string, string) -> string)
    requires EscapeAt(s, i) && j == IndexOfChar(s, 'm', i + 2) && j < |s|
    requires parts + Render(s, i, color, buffer, recolor) == target
    ensures (parts + Flush(buffer, color)) + Render(s, j + 1, recolor(color, s[i + 2..j]), [], recolor) == target
  {
    RenderAtCode(s, i, j, color, buffer, recolor);
  }

  /** Stepping over an `ESC [` with no `m` after it keeps `parts + rest == target`. */
  lemma StepLoneEscape(s: string, i: nat, color: string, buffer: string, parts: seq<Part>, target: seq<Part>, recolor: (string, string) -> string)
    requires EscapeAt(s, i) && IndexOfChar(s, 'm', i + 2) == |s|
    requires parts + Render(s, i, color, buffer, recolor) == target
    ensures (parts + Flush(buffer, color)) + Render(s, i + 1, color, [s[i]], recolor) == target
  {
    RenderAtLoneEscape(s, i, color, buffer, recolor);
  }

  /** The branch of the scanning loop taken at `ESC [` (AnsiText.js:50-80): the pending
      run is saved, the code up to the next `m` is applied, or, with no `m`, the ESC
      starts a new run. */
  method ScanEscape(cleaned: string, i: nat, color: string, buffer: string, parts: seq<Part>, ghost target: seq<Part>)
    returns (i': nat, color': string, buffer': string, parts': seq<Part>)
    requires EscapeAt(cleaned, i)
    requires parts + Render(cleaned, i, color, buffer, ApplyCode) == target
    ensures i < i' <= |cleaned|
    ensures parts' + Render(cleaned, i', color', buffer', ApplyCode) == target
  {
    var j := FindCodeEnd(cleaned, i + 2);
    if j < |cleaned| {
      StepCode(cleaned, i, j, color, buffer, parts, target, ApplyCode);
      i', color', buffer', parts' := j + 1, ApplyCode(color, cleaned[i + 2..j]), [], parts + Flush(buffer, color);
    } else {
      StepLoneEscape(cleaned, i, color, buffer, parts, target, ApplyCode);
      i', color', buffer', parts' := i + 1, color, [cleaned[i]], parts + Flush(buffer, color);
    }
  }

  /** The scanning loop of `parseAnsiText` (AnsiText.js:44-88), over the cleaned text. */
  method Scan(cleaned: string) returns (parts: seq<Part>)
    ensures parts == Render(cleaned, 0, White, [], ApplyCode)
  {
    parts := [];
    var color := White;
    var buffer: string := [];
    var i := 0;
    ghost var target := Render(cleaned, 0, White, [], ApplyCode);
    while i < |cleaned|
      invariant i <= |cleaned|
      invariant parts + Render(cleaned, i, color, buffer, ApplyCode) == target
      decreases |cleaned| - i
    {
      if cleaned[i] == ESC && i + 1 < |cleaned| && cleaned[i + 1] == '[' {
        i, color, buffer, parts := ScanEscape(cleaned, i, color, buffer, parts, target);
      } else {
        buffer := buffer + [cleaned[i]];
        i := i + 1;
      }
    }
    parts := parts + Flush(buffer, color);
  }

  /** `parseAnsiText(text)` (AnsiText.js:31-89). */
  method ParseAnsiText(text: string) returns (parts: seq<Part>)
    ensures parts == Render(Clean(text), 0, White, [], ApplyCode)
    ensures Texts(parts) == Visible(Clean(text), 0)
    ensures forall k :: 0 <= k < |parts| ==> parts[k].text != [] && parts[k].color in Palette
    ensures Clean(text) == [] ==> parts == []
  {
    var cleaned := Clean(text);
    parts := Scan(cleaned);
    RenderHasNoEmptyPart(cleaned, 0, White, [], ApplyCode);
    RenderUsesPalette(cleaned, 0, White, [], ApplyCode);
    RenderKeepsVisibleText(cleaned, 0, White, [], ApplyCode);
  }
}
