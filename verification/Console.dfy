/**
 The text console: a character buffer with wrapping and scrolling, as a window
 onto the last rows of an unbounded page.
 */
module Console {
  import opened Bits

  // ----- character cells

  const SPACE: char := ' '

  /** One cell: background, foreground, and the low 16 bits of the character, combined bit by bit. */
  function GenPixel(bg: nat, fg: nat, c: char): nat {
    Or(Or(bg * 4096, fg * 256), c as nat % 65536)
  }

  /** For characters below 256 the three fields can be read back. */
  lemma {:induction false} PixelFields(bg: nat, fg: nat, c: char)
    requires bg < 16 && fg < 16 && c as nat < 256
    ensures GenPixel(bg, fg, c) == bg * 4096 + fg * 256 + c as nat
    ensures var p := GenPixel(bg, fg, c); p % 256 == c as nat && p / 256 % 16 == fg && p / 4096 == bg && p < 65536
  {
    PixelIs(bg, fg, c);
    Fields(bg, fg, c as nat);
  }

  /** A blank cell is the character with code 32 on its background. */
  lemma {:induction false} BlankCell(bg: nat, fg: nat)
    requires bg < 16 && fg < 16
    ensures var p := GenPixel(bg, fg, SPACE); p % 256 == 32 && p / 256 % 16 == fg && p / 4096 == bg
  {
    PixelFields(bg, fg, SPACE);
  }

  lemma {:induction false} PixelIs(bg: nat, fg: nat, c: char)
    requires bg < 16 && fg < 16 && c as nat < 256
    ensures GenPixel(bg, fg, c) == (bg * 16 + fg) * 256 + c as nat
  {
    ColourBits(bg, fg);
    CharBits(bg * 16 + fg, c as nat);
  }

  lemma {:induction false} ColourBits(bg: nat, fg: nat)
    requires bg < 16 && fg < 16
    ensures Or(bg * 4096, fg * 256) == (bg * 16 + fg) * 256
  {
    assert Pow2(12) == 4096;
    OrDisjoint(12, bg, fg * 256);
  }

  lemma {:induction false} CharBits(h: nat, c: nat)
    requires c < 256
    ensures Or(h * 256, c) == h * 256 + c
  {
    assert Pow2(8) == 256;
    OrDisjoint(8, h, c);
  }

  lemma {:induction false} Fields(bg: nat, fg: nat, c: nat)
    requires bg < 16 && fg < 16 && c < 256
    ensures var p := (bg * 16 + fg) * 256 + c;
            p == bg * 4096 + fg * 256 + c && p % 256 == c && p / 256 % 16 == fg && p / 4096 == bg && p < 65536
  {
    var p := (bg * 16 + fg) * 256 + c;
    assert p / 256 == bg * 16 + fg;
  }

  // ----- the unbounded page

  function Blanks(n: nat, space: nat): seq<nat> {
    seq(n, _ => space)
  }

  /** The cells of a page of width w in reading order, up to the cursor, after one more character:
      a newline fills the rest of the row. */
  function Advance(w: nat, bg: nat, fg: nat, page: seq<nat>, c: char): seq<nat>
    requires 0 < w
  {
    if c == '\n' then page + Blanks(w - |page| % w, GenPixel(bg, fg, SPACE)) else page + [GenPixel(bg, fg, c)]
  }

  /** The page a text produces from its beginning. */
  function Page(w: nat, bg: nat, fg: nat, page: seq<nat>, text: string): seq<nat>
    requires 0 < w
    decreases text
  {
    if text == [] then page else Page(w, bg, fg, Advance(w, bg, fg, page, text[0]), text[1..])
  }

  lemma {:induction false} PageAppend(w: nat, bg: nat, fg: nat, page: seq<nat>, a: string, b: string)
    requires 0 < w
    ensures Page(w, bg, fg, page, a + b) == Page(w, bg, fg, Page(w, bg, fg, page, a), b)
    decreases a
  {
    if a == [] {
      assert a + b == b;
    } else {
      assert (a + b)[1..] == a[1..] + b;
      PageAppend(w, bg, fg, Advance(w, bg, fg, page, a[0]), a[1..], b);
    }
  }

  /** A line without newlines is laid out cell by cell, wrapping at the right edge. */
  lemma {:induction false} LineIsCells(w: nat, bg: nat, fg: nat, page: seq<nat>, line: string)
    requires 0 < w && '\n' !in line
    ensures Page(w, bg, fg, page, line) == page + seq(|line|, i requires 0 <= i < |line| => GenPixel(bg, fg, line[i]))
    decreases line
  {
    if line != [] {
      LineIsCells(w, bg, fg, Advance(w, bg, fg, page, line[0]), line[1..]);
    }
  }

  /** After a newline the next character starts a row; the rest of the row, at least one cell, is blank. */
  lemma {:induction false} NewlineStartsRow(w: nat, bg: nat, fg: nat, page: seq<nat>)
    requires 0 < w
    ensures var next := Advance(w, bg, fg, page, '\n');
            && |next| % w == 0 && |next| / w == |page| / w + 1 && |page| < |next| && page <= next
            && forall i :: |page| <= i < |next| ==> next[i] == GenPixel(bg, fg, SPACE)
  {
    var q := |page| / w;
    assert |page| == q * w + |page| % w;
    assert (q + 1) * w == q * w + w;
    DivModUnique(|page| + (w - |page| % w), w, q + 1, 0);
  }

  // ----- the buffer

  /** The cell of the page at position i; blank beyond the cursor. */
  function Cell(page: seq<nat>, space: nat, i: nat): nat {
    if i < |page| then page[i] else space
  }

  /** The first row of the page that a screen of h rows shows. */
  function TopRow(w: nat, h: nat, page: seq<nat>): nat
    requires 0 < w && 0 < h
  {
    if |page| / w < h then 0 else |page| / w - (h - 1)
  }

  /** The screen starts at the first row until the page has outgrown it, and then so that the row of the cursor is the
      last one. */
  lemma {:induction false} TopRowIs(w: nat, h: nat, page: seq<nat>)
    requires 0 < w && 0 < h
    ensures var top := TopRow(w, h, page);
            |page| / w < top + h && (top == 0 || |page| / w == top + h - 1)
  {
  }

  /** Cell i of the page is x. */
  predicate PageHas(page: seq<nat>, space: nat, i: nat, x: nat) {
    (i < |page| ==> x == page[i]) && (|page| <= i ==> x == space)
  }

  class CharacterDisplay {
    const width: nat
    const height: nat
    const vram: array<nat>
    const background: nat
    const foreground: nat
    var x: nat
    var y: nat

    ghost predicate Valid()
      reads this
    {
      0 < width && 0 < height && vram.Length == width * height && x < width && y < height
    }

    function Space(): nat {
      GenPixel(background, foreground, SPACE)
    }

    /** The buffer holds the rows of the page from `top` on. */
    ghost predicate Window(page: seq<nat>, top: nat)
      reads vram
    {
      forall i :: 0 <= i < vram.Length ==> vram[i] == Cell(page, Space(), top * width + i)
    }

    /** The screen shows the last rows of the page, with the cursor where the page ends. */
    ghost predicate Shows(page: seq<nat>)
      reads this, vram
    {
      && Valid()
      && x == |page| % width
      && y + TopRow(width, height, page) == |page| / width
      && Window(page, TopRow(width, height, page))
    }

    /** What the cell in row r and column c holds and where the cursor is: the page from its beginning while that fits,
        and otherwise its last rows, with the cursor in the bottom row. */
    lemma {:induction false} ScreenCell(page: seq<nat>, r: nat, c: nat)
      requires Shows(page) && r < height && c < width
      ensures r * width + c < vram.Length && x == |page| % width
      ensures |page| / width < height ==>
                y == |page| / width && PageHas(page, Space(), r * width + c, vram[r * width + c])
      ensures height - 1 <= |page| / width ==>
                y == height - 1
                && PageHas(page, Space(), (|page| / width - (height - 1) + r) * width + c, vram[r * width + c])
    {
      RowsBefore(width, height, r, c, TopRow(width, height, page));
      assert vram[r * width + c] == Cell(page, Space(), TopRow(width, height, page) * width + (r * width + c));
    }

    constructor (width: nat, height: nat, vram: array<nat>, background: nat, foreground: nat)
      requires 0 < width && 0 < height && vram.Length == width * height
      ensures Valid() && x == 0 && y == 0
      ensures this.width == width && this.height == height && this.vram == vram
      ensures this.background == background && this.foreground == foreground
    {
      this.width, this.height, this.vram := width, height, vram;
      this.background, this.foreground := background, foreground;
      x, y := 0, 0;
    }

    method ClearScreen()
      requires Valid()
      modifies vram
      ensures Valid() && forall i :: 0 <= i < vram.Length ==> vram[i] == Space()
      ensures x == 0 && y == 0 ==> Shows([])
    {
      var i := 0;
      while i < width * height
        invariant 0 <= i <= width * height
        invariant forall k :: 0 <= k < i ==> vram[k] == Space()
      {
        vram[i] := Space();
        i := i + 1;
      }
    }

    /** Move every row up by one and blank the last row. */
    method ScrollUp(ghost page: seq<nat>, ghost top: nat)
      requires 0 < width && 0 < height && vram.Length == width * height
      requires Window(page, top) && |page| <= (top + height) * width
      modifies vram
      ensures Window(page, top + 1)
    {
      LastRow(width, height, top);
      MoveRows(width * height);
      BlankFrom(width * (height - 1), width * height);
    }

    method MoveRows(area: nat)
      requires area == vram.Length && width <= area
      modifies vram
      ensures forall k :: 0 <= k < area - width ==> vram[k] == old(vram[k + width])
    {
      var i := width;
      while i < area
        invariant width <= i <= area
        invariant forall k :: 0 <= k < i - width ==> vram[k] == old(vram[k + width])
        invariant forall k :: i - width <= k < area ==> vram[k] == old(vram[k])
      {
        vram[i - width] := vram[i];
        i := i + 1;
      }
    }

    method BlankFrom(start: nat, area: nat)
      requires area == vram.Length && start <= area
      modifies vram
      ensures forall k :: 0 <= k < area ==> vram[k] == if k < start then old(vram[k]) else Space()
    {
      var i := start;
      while i < area
        invariant start <= i <= area
        invariant forall k :: 0 <= k < area ==> vram[k] == if start <= k < i then Space() else old(vram[k])
      {
        vram[i] := Space();
        i := i + 1;
      }
    }

    /** `print`, one character. */
    method PrintChar(c: char, ghost page: seq<nat>)
      requires Shows(page)
      modifies this, vram
      ensures Shows(Advance(width, background, foreground, page, c))
    {
      ghost var next := Advance(width, background, foreground, page, c);
      ghost var top := TopRow(width, height, page);
      CursorMoves(width, height, background, foreground, page, c);
      PlaceChar(c, page, top);
      if width <= x {
        x := 0;
        y := y + 1;
      }
      if height <= y {
        ScrollUp(next, top);
        y := y - 1;
      }
    }

    /** Write the character and move the cursor, possibly beyond the screen. */
    method PlaceChar(c: char, ghost page: seq<nat>, ghost top: nat)
      requires Shows(page) && top == TopRow(width, height, page)
      modifies this, vram
      ensures x == (if c == '\n' then 0 else old(x) + 1) && y == old(y) + (if c == '\n' then 1 else 0)
      ensures Window(Advance(width, background, foreground, page, c), top)
    {
      if c != '\n' {
        CursorCell(width, height, x, y, top, page);
        vram[x + y * width] := GenPixel(background, foreground, c);
        x := x + 1;
      } else {
        x := 0;
        y := y + 1;
      }
    }

    /** `print`: from a screen that shows a page, the screen shows the page extended by the text. */
    method Print(text: string, ghost page: seq<nat>)
      requires Shows(page)
      modifies this, vram
      ensures Shows(Page(width, background, foreground, page, text))
    {
      ghost var now := page;
      var i := 0;
      while i < |text|
        invariant 0 <= i <= |text|
        invariant Shows(now)
        invariant Page(width, background, foreground, now, text[i..]) == Page(width, background, foreground, page, text)
      {
        assert text[i..][1..] == text[i + 1..];
        PrintChar(text[i], now);
        now := Advance(width, background, foreground, now, text[i]);
        i := i + 1;
      }
    }

    /** `println`. */
    method Println(text: string, ghost page: seq<nat>)
      requires Shows(page)
      modifies this, vram
      ensures Shows(Page(width, background, foreground, page, text + "\n"))
    {
      Print(text, page);
      Print("\n", Page(width, background, foreground, page, text));
      PageAppend(width, background, foreground, page, text, "\n");
    }
  }

  // ----- arithmetic of rows

  lemma {:induction false} RowsBefore(w: nat, h: nat, r: nat, c: nat, top: nat)
    requires r < h && c < w
    ensures r * w + c < w * h && top * w + (r * w + c) == (top + r) * w + c
  {
    MulGap(r, h, w);
    MulSum(top, r, w);
  }

  lemma {:induction false} LastRow(w: nat, h: nat, top: nat)
    requires 0 < w && 0 < h
    ensures 0 <= w * (h - 1) && w * (h - 1) + w == w * h && w <= w * h
    ensures (top + 1) * w == top * w + w && (top + 1) * w + w * (h - 1) == (top + h) * w
  {
  }

  /** Where the page ends after one more character, and which row is then on top. */
  lemma {:induction false} CursorMoves(w: nat, h: nat, bg: nat, fg: nat, page: seq<nat>, c: char)
    requires 0 < w && 0 < h
    ensures var next := Advance(w, bg, fg, page, c); var row, col := |page| / w, |page| % w;
            && (c == '\n' || col + 1 == w ==> |next| / w == row + 1 && |next| % w == 0)
            && (c != '\n' && col + 1 < w ==> |next| / w == row && |next| % w == col + 1)
            && |next| <= (row + 1) * w
  {
    var row, col := |page| / w, |page| % w;
    assert |page| == row * w + col;
    assert (row + 1) * w == row * w + w;
    if c == '\n' || col + 1 == w {
      var next := Advance(w, bg, fg, page, c);
      assert |next| == (row + 1) * w;
      DivModUnique(|next|, w, row + 1, 0);
    } else {
      DivModUnique(|page| + 1, w, row, col + 1);
    }
  }

  /** The cell the cursor points at is the first one beyond the page. */
  lemma {:induction false} CursorCell(w: nat, h: nat, x: nat, y: nat, top: nat, page: seq<nat>)
    requires 0 < w && x < w && y < h && x == |page| % w && y + top == |page| / w
    ensures x + y * w < w * h && top * w + (x + y * w) == |page|
  {
    assert |page| == (|page| / w) * w + x;
    assert (y + top) * w == y * w + top * w;
    MulGap(y, h, w);
    assert h * w == w * h;
  }
}
