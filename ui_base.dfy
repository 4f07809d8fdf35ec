/** The arithmetic of the curses helpers (ui_base.py): `clamp`, and where
    `draw_centered_box`, `draw_header` and `draw_footer` put their text.
    A drawing call is described by the `addnstr` it makes. */
module UiBase {
  import opened Common
  import opened Text

  function Min(a: int, b: int): int
  {
    if a <= b then a else b
  }

  function Max(a: int, b: int): int
  {
    if a >= b then a else b
  }

  /** `clamp(value, min_value, max_value)`: `max(min_value, min(value, max_value))`. */
  function Clamp(value: int, lo: int, hi: int): (r: int)
    ensures lo <= hi ==> lo <= r <= hi
    ensures lo <= value <= hi ==> r == value
    ensures value < lo || hi < lo ==> r == lo
    ensures lo <= hi < value ==> r == hi
  {
    Max(lo, Min(value, hi))
  }

  /** Clamping twice is clamping once. */
  lemma ClampIdempotent(value: int, lo: int, hi: int)
    ensures Clamp(Clamp(value, lo, hi), lo, hi) == Clamp(value, lo, hi)
  {
  }

  /** The text attributes the views combine. */
  datatype Attr = Reverse | Bold | Dim | BoxColour

  /** One `addnstr(row, col, text, limit, attrs)` call. */
  datatype Put = Put(row: int, col: int, text: string, limit: int, attrs: set<Attr>)

  /** The longest line's length, `max(len(line) for line in lines)`. */
  function Longest(lines: seq<string>): (n: nat)
    requires |lines| > 0
    ensures forall i :: 0 <= i < |lines| ==> |lines[i]| <= n
    ensures exists i :: 0 <= i < |lines| && |lines[i]| == n
    decreases |lines|
  {
    if |lines| == 1 then |lines[0]|
    else
      var m := Longest(lines[..|lines| - 1]);
      assert forall i :: 0 <= i < |lines| - 1 ==> lines[..|lines| - 1][i] == lines[i];
      Max(m, |lines[|lines| - 1]|)
  }

  /** The window `draw_centered_box` derives: size and top-left corner. */
  datatype Box = Box(height: int, width: int, top: int, left: int)

  /** The geometry of `draw_centered_box(stdscr, lines)` on an h by w
      screen: as tall as the lines plus a border, as wide as the longest
      line plus a border and a margin, both capped two short of the screen,
      and centred with the odd cell left below and to the right. With no
      lines, `max()` raises ValueError. */
  function CenteredBox(h: int, w: int, lines: seq<string>): (r: Result<Box>)
    ensures |lines| == 0 <==> r == Fail(ValueError("max() arg is an empty sequence"))
    ensures r.Ok? ==> var b := r.value;
      b.height == Min(|lines| + 2, h - 2) && b.width == Min(Longest(lines) + 4, w - 2) &&
      b.height <= h - 2 && b.width <= w - 2 &&
      (forall i :: 0 <= i < |lines| ==> b.width <= w - 2 && (b.width == w - 2 || |lines[i]| + 4 <= b.width))
    ensures r.Ok? ==> var b := r.value;
      2 * b.top <= h - b.height <= 2 * b.top + 1 && 2 * b.left <= w - b.width <= 2 * b.left + 1
  {
    if |lines| == 0 then Fail(ValueError("max() arg is an empty sequence"))
    else
      var height := Min(|lines| + 2, h - 2);
      var width := Min(Longest(lines) + 4, w - 2);
      Ok(Box(height, width, (h - height) / 2, (w - width) / 2))
  }

  /** The line at position i of the box, drawn on row i + 1 of the box
      window at column 2 and cut to `win_w - 4` characters. */
  function BoxLine(i: nat, line: string, winW: int, attrs: set<Attr>): (p: Put)
    ensures p.row == i + 1 && p.col == 2 && p.limit == winW - 4
    ensures |p.text| <= |line| && p.text == line[..|p.text|]
    ensures winW >= 4 ==> |p.text| == Min(|line|, winW - 4)
  {
    Put(i + 1, 2, SliceTo(line, winW - 4), winW - 4, attrs)
  }

  /** The `addnstr` calls of `draw_centered_box`'s loop, in order. */
  function BoxLines(lines: seq<string>, winW: int, attrs: set<Attr>): (r: seq<Put>)
    ensures |r| == |lines|
  {
    seq(|lines|, i requires 0 <= i < |lines| => BoxLine(i, lines[i], winW, attrs))
  }

  /** Every line of a box that is wide enough for its margin starts at
      column 2 on its own row and shows as much of its text as fits. */
  lemma BoxLinesFit(h: int, w: int, lines: seq<string>, attrs: set<Attr>)
    requires CenteredBox(h, w, lines).Ok? && CenteredBox(h, w, lines).value.width >= 4
    ensures var b := CenteredBox(h, w, lines).value;
      forall i :: 0 <= i < |lines| ==>
        var p := BoxLines(lines, b.width, attrs)[i];
        p.row == i + 1 && p.col == 2 && p.text == lines[i][..|p.text|] &&
        |p.text| <= b.width - 4 && (|lines[i]| + 4 <= b.width ==> p.text == lines[i])
  {
    var b := CenteredBox(h, w, lines).value;
    forall i | 0 <= i < |lines|
      ensures var p := BoxLines(lines, b.width, attrs)[i];
        p.row == i + 1 && p.col == 2 && p.text == lines[i][..|p.text|] &&
        |p.text| <= b.width - 4 && (|lines[i]| + 4 <= b.width ==> p.text == lines[i])
    {
      var p := BoxLine(i, lines[i], b.width, attrs);
      assert BoxLines(lines, b.width, attrs)[i] == p;
      if |lines[i]| + 4 <= b.width {
        assert |p.text| == |lines[i]|;
      }
    }
  }

  /** The text a one-row bar writes: `text.ljust(max(1, w - 1))` limited to
      `max(0, w - 1)` columns, or nothing on a screen without rows or
      columns. */
  function Bar(row: int, h: int, w: int, text: string): (r: Option<Put>)
    ensures r.None? <==> h <= 0 || w <= 0
    ensures r.Some? ==> r.value.row == row && r.value.col == 0 && r.value.limit == w - 1
    ensures r.Some? ==> |r.value.text| >= w - 1
    ensures r.Some? ==> forall i :: 0 <= i < w - 1 ==> r.value.text[i] == if i < |text| then text[i] else ' '
  {
    if w <= 0 || h <= 0 then None
    else
      var padded := LJust(text, Max(1, w - 1));
      LJustChars(text, Max(1, w - 1));
      Some(Put(row, 0, padded, Max(0, w - 1), {}))
  }

  /** Padding keeps the text and fills the rest with spaces. */
  lemma LJustChars(s: string, width: int)
    ensures forall i :: 0 <= i < |LJust(s, width)| ==> LJust(s, width)[i] == if i < |s| then s[i] else ' '
  {
    var r := LJust(s, width);
    if width > |s| {
      assert r == s + Spaces(width - |s|);
    }
  }

  /** `s[:n].ljust(n)`: exactly n columns, the text cut or padded with spaces. */
  function Fit(s: string, n: nat): (r: string)
    ensures |r| == n
    ensures forall i :: 0 <= i < n ==> r[i] == if i < |s| then s[i] else ' '
  {
    LJustChars(SliceTo(s, n), n);
    LJust(SliceTo(s, n), n)
  }

  /** `draw_header`: the bar on the top row. */
  function Header(h: int, w: int, text: string): (r: Option<Put>)
    ensures r.Some? ==> r.value.row == 0
  {
    Bar(0, h, w, text)
  }

  /** `draw_footer`: the bar on the bottom row. */
  function Footer(h: int, w: int, text: string): (r: Option<Put>)
    ensures r.Some? ==> r.value.row == h - 1
  {
    Bar(h - 1, h, w, text)
  }
}
