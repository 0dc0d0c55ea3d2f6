/** The 64x32 monochrome screen: a grid of byte pixels indexed `[x][y]`, a
    redraw flag, clearing, and XOR compositing of one 8-pixel sprite row. */
module Display {
  import opened Bits

  const ScreenWidthPx := 64
  const ScreenHeightPx := 32
  const SpriteWidthPx := 8

  /** A snapshot of the pixel grid, column-major like the source: `g[x][y]`. */
  type Screen = seq<seq<byte>>

  predicate IsScreen(g: Screen)
  {
    |g| == ScreenWidthPx && forall c :: 0 <= c < |g| ==> |g[c]| == ScreenHeightPx
  }

  /** Every pixel is off (0) or on (1). */
  predicate IsBinary(g: Screen)
    requires IsScreen(g)
  {
    forall c, r :: 0 <= c < ScreenWidthPx && 0 <= r < ScreenHeightPx ==> g[c][r] == 0 || g[c][r] == 1
  }

  /** The all-zero screen. */
  function Blank(): (g: Screen)
    ensures IsScreen(g)
    ensures forall c, r :: 0 <= c < ScreenWidthPx && 0 <= r < ScreenHeightPx ==> g[c][r] == 0
  {
    seq(ScreenWidthPx, c => seq(ScreenHeightPx, r => 0))
  }

  /** The screen column that sprite bit k (counted from the most significant
      bit) lands on when the row is drawn at column x. */
  function Column(x: byte, k: nat): (c: nat)
  {
    (x + k) % ScreenWidthPx
  }

  /** Which sprite bit lands on screen column c when drawing at column x;
      a bit of the row exists there only when this is below 8. */
  function Offset(x: byte, c: nat): (k: nat)
  {
    (c - x) % ScreenWidthPx
  }

  /** Sprite bit k of row, most significant first: `row >> (7 - k) & 1`. */
  function SpriteBit(row: byte, k: nat): (b: byte)
    requires k < SpriteWidthPx
  {
    Shr(row, SpriteWidthPx - 1 - k) % 2
  }

  /** How many times the drawing loop `for i := x; i < x+8; i++` runs over
      bytes: eight times, unless `x + 8` wraps past 255, in which case the
      bound is below x and the loop never runs. */
  function SpriteColumns(x: byte): (n: nat)
  {
    if x + SpriteWidthPx < 256 then SpriteWidthPx else 0
  }

  /** g with the first n bits of row XORed onto line y, starting at column x. */
  function XorRow(g: Screen, x: byte, y: byte, row: byte, n: nat): (h: Screen)
    requires IsScreen(g) && n <= SpriteWidthPx
    ensures IsScreen(h)
  {
    seq(ScreenWidthPx, c requires 0 <= c < ScreenWidthPx =>
      seq(ScreenHeightPx, r requires 0 <= r < ScreenHeightPx =>
        if r == y % ScreenHeightPx && Offset(x, c) < n
        then Xor8(g[c][r], SpriteBit(row, Offset(x, c)))
        else g[c][r]))
  }

  /** The screen after `DrawSprite(x, y, row)` as the source writes it. */
  function Drawn(g: Screen, x: byte, y: byte, row: byte): (h: Screen)
    requires IsScreen(g)
    ensures IsScreen(h)
  {
    XorRow(g, x, y, row, SpriteColumns(x))
  }

  /** Some pixel under one of the first n sprite bits is set (== 1) while
      its sprite bit is 1. */
  predicate CollidesIn(g: Screen, x: byte, y: byte, row: byte, n: nat)
    requires IsScreen(g) && n <= SpriteWidthPx
  {
    exists k :: 0 <= k < n && g[Column(x, k)][y % ScreenHeightPx] == 1 && SpriteBit(row, k) == 1
  }

  /** The result of `DrawSprite(x, y, row)` on screen g. */
  predicate Collides(g: Screen, x: byte, y: byte, row: byte)
    requires IsScreen(g)
  {
    CollidesIn(g, x, y, row, SpriteColumns(x))
  }

  /** The corrected drawing: all eight columns are drawn for every x, wrapping
      modulo the screen width as intended. */
  function DrawnWrapped(g: Screen, x: byte, y: byte, row: byte): (h: Screen)
    requires IsScreen(g)
    ensures IsScreen(h)
  {
    XorRow(g, x, y, row, SpriteWidthPx)
  }

  lemma ColumnOffset(x: byte, k: nat, c: nat)
    requires k < ScreenWidthPx && c < ScreenWidthPx
    ensures Column(x, k) == c <==> Offset(x, c) == k
  {
  }

  /** g with pixel (c, r) set to v. */
  function SetPixel(g: Screen, c: nat, r: nat, v: byte): (h: Screen)
    requires IsScreen(g) && c < ScreenWidthPx && r < ScreenHeightPx
    ensures IsScreen(h)
  {
    var line: seq<byte> := g[c][r := v];
    g[c := line]
  }

  /** Drawing one more sprite bit changes exactly the pixel under it, which
      has not been drawn before and so still holds its value in g. */
  lemma XorRowStep(g: Screen, x: byte, y: byte, row: byte, d: nat)
    requires IsScreen(g) && d < SpriteWidthPx
    ensures XorRow(g, x, y, row, d)[Column(x, d)][y % ScreenHeightPx] == g[Column(x, d)][y % ScreenHeightPx]
    ensures XorRow(g, x, y, row, d + 1) ==
      var c, r := Column(x, d), y % ScreenHeightPx;
      SetPixel(XorRow(g, x, y, row, d), c, r, Xor8(g[c][r], SpriteBit(row, d)))
  {
    var h, c0, r0 := XorRow(g, x, y, row, d), Column(x, d), y % ScreenHeightPx;
    var after := SetPixel(h, c0, r0, Xor8(g[c0][r0], SpriteBit(row, d)));
    var next := XorRow(g, x, y, row, d + 1);
    forall c, r | 0 <= c < ScreenWidthPx && 0 <= r < ScreenHeightPx
      ensures after[c][r] == next[c][r]
    {
      ColumnOffset(x, d, c);
    }
    ColumnOffset(x, d, c0);
    SameScreen(after, next);
  }

  /** Drawing no sprite bit leaves the screen as it was. */
  lemma XorRowNone(g: Screen, x: byte, y: byte, row: byte)
    requires IsScreen(g)
    ensures XorRow(g, x, y, row, 0) == g
  {
    SameScreen(XorRow(g, x, y, row, 0), g);
  }

  /** Looking at one more sprite bit finds a collision exactly when the pixel
      under it is set and the bit is 1. */
  lemma CollidesInStep(g: Screen, x: byte, y: byte, row: byte, d: nat)
    requires IsScreen(g) && d < SpriteWidthPx
    ensures CollidesIn(g, x, y, row, d + 1) <==>
      CollidesIn(g, x, y, row, d) || (g[Column(x, d)][y % ScreenHeightPx] == 1 && SpriteBit(row, d) == 1)
  {
  }

  /** A pixel is erased (was 1, is 0 after the XOR) exactly when it was 1
      and the sprite bit is 1. */
  lemma ErasedIff(p: byte, v: byte)
    requires v < 2
    ensures (p == 1 && Xor8(p, v) == 0) <==> (p == 1 && v == 1)
  {
    if p == 1 {
      Xor8OnBits(1, v);
    }
  }

  /** Inside the drawing loop the byte arithmetic does not wrap: the shift
      amount `x + 8 - i - 1` is 7 - d and `i + 1` stays below 256. */
  lemma NoWrap(bound: byte, i: byte, d: nat)
    requires i < bound && d < SpriteWidthPx && bound - i == SpriteWidthPx - d
    ensures SubByte(SubByte(bound, i), 1) == SpriteWidthPx - 1 - d
    ensures AddByte(i, 1) == i + 1
  {
  }

  /** The bit the loop extracts, `row >> shift & 1` with shift 7 - d, is
      sprite bit d. */
  lemma SpriteBitAt(row: byte, d: nat, shift: nat)
    requires d < SpriteWidthPx && shift == SpriteWidthPx - 1 - d
    ensures Bitwise(And, Shr(row, shift), 1, 8) == SpriteBit(row, d)
    ensures SpriteBit(row, d) < 2
  {
    AndOne(Shr(row, shift), 8);
  }

  /** Two screens are equal when they agree on every pixel. */
  lemma SameScreen(g: Screen, h: Screen)
    requires IsScreen(g) && IsScreen(h)
    requires forall c, r :: 0 <= c < ScreenWidthPx && 0 <= r < ScreenHeightPx ==> g[c][r] == h[c][r]
    ensures g == h
  {
    forall c | 0 <= c < ScreenWidthPx
      ensures g[c] == h[c]
    {
      assert forall r :: 0 <= r < ScreenHeightPx ==> g[c][r] == h[c][r];
    }
  }

  /** The 8 target columns are distinct: the screen is at least 8 wide. */
  lemma ColumnsDistinct(x: byte, j: nat, k: nat)
    requires j < SpriteWidthPx && k < SpriteWidthPx && j != k
    ensures Column(x, j) != Column(x, k)
  {
    ColumnOffset(x, j, Column(x, k));
    ColumnOffset(x, k, Column(x, k));
  }

  /** When `x + 8` does not wrap, pixel ((x + k) mod 64, y mod 32) becomes its
      old value XOR sprite bit k, most significant bit first. */
  lemma DrawnAt(g: Screen, x: byte, y: byte, row: byte, k: nat)
    requires IsScreen(g) && x + SpriteWidthPx < 256 && k < SpriteWidthPx
    ensures Drawn(g, x, y, row)[Column(x, k)][y % ScreenHeightPx] ==
      Xor8(g[Column(x, k)][y % ScreenHeightPx], SpriteBit(row, k))
  {
    ColumnOffset(x, k, Column(x, k));
  }

  /** Only the pixels under the sprite bits, on line y mod 32, can change. */
  lemma DrawnFrame(g: Screen, x: byte, y: byte, row: byte, c: nat, r: nat)
    requires IsScreen(g) && c < ScreenWidthPx && r < ScreenHeightPx
    requires r != y % ScreenHeightPx || forall k :: 0 <= k < SpriteColumns(x) ==> c != Column(x, k)
    ensures Drawn(g, x, y, row)[c][r] == g[c][r]
  {
    ColumnOffset(x, Offset(x, c), c);
  }

  /** XORing the same first n sprite bits twice restores the screen. */
  lemma XorRowTwice(g: Screen, x: byte, y: byte, row: byte, n: nat)
    requires IsScreen(g) && n <= SpriteWidthPx
    ensures XorRow(XorRow(g, x, y, row, n), x, y, row, n) == g
  {
    var h := XorRow(g, x, y, row, n);
    var h2 := XorRow(h, x, y, row, n);
    forall c, r | 0 <= c < ScreenWidthPx && 0 <= r < ScreenHeightPx
      ensures h2[c][r] == g[c][r]
    {
      if r == y % ScreenHeightPx && Offset(x, c) < n {
        Xor8Twice(g[c][r], SpriteBit(row, Offset(x, c)));
      }
    }
    SameScreen(h2, g);
  }

  /** Drawing the same row at the same place twice restores the screen. */
  lemma DrawTwiceRestores(g: Screen, x: byte, y: byte, row: byte)
    requires IsScreen(g)
    ensures Drawn(Drawn(g, x, y, row), x, y, row) == g
  {
    XorRowTwice(g, x, y, row, SpriteColumns(x));
  }

  /** The same holds of the corrected drawing. */
  lemma DrawWrappedTwiceRestores(g: Screen, x: byte, y: byte, row: byte)
    requires IsScreen(g)
    ensures DrawnWrapped(DrawnWrapped(g, x, y, row), x, y, row) == g
  {
    XorRowTwice(g, x, y, row, SpriteWidthPx);
  }

  /** Drawing keeps a screen of 0/1 pixels a screen of 0/1 pixels. */
  lemma DrawnKeepsBinary(g: Screen, x: byte, y: byte, row: byte)
    requires IsScreen(g) && IsBinary(g)
    ensures IsBinary(Drawn(g, x, y, row))
  {
    var h := Drawn(g, x, y, row);
    forall c, r | 0 <= c < ScreenWidthPx && 0 <= r < ScreenHeightPx
      ensures h[c][r] == 0 || h[c][r] == 1
    {
      if r == y % ScreenHeightPx && Offset(x, c) < SpriteColumns(x) {
        Xor8OnBits(g[c][r], SpriteBit(row, Offset(x, c)));
      }
    }
  }

  /** Some pixel of g is 1 and is 0 in h. */
  predicate SomeErased(g: Screen, h: Screen)
    requires IsScreen(g) && IsScreen(h)
  {
    exists c, r :: 0 <= c < ScreenWidthPx && 0 <= r < ScreenHeightPx && g[c][r] == 1 && h[c][r] == 0
  }

  /** The collision result says exactly that some pixel went from 1 to 0. */
  lemma CollidesIffErased(g: Screen, x: byte, y: byte, row: byte)
    requires IsScreen(g)
    ensures Collides(g, x, y, row) <==> SomeErased(g, Drawn(g, x, y, row))
  {
    if Collides(g, x, y, row) {
      CollisionErases(g, x, y, row);
    }
    if SomeErased(g, Drawn(g, x, y, row)) {
      ErasureCollides(g, x, y, row);
    }
  }

  lemma CollisionErases(g: Screen, x: byte, y: byte, row: byte)
    requires IsScreen(g) && Collides(g, x, y, row)
    ensures SomeErased(g, Drawn(g, x, y, row))
  {
    var yr := y % ScreenHeightPx;
    var k :| 0 <= k < SpriteColumns(x) && g[Column(x, k)][yr] == 1 && SpriteBit(row, k) == 1;
    DrawnAt(g, x, y, row, k);
    Xor8OnBits(1, 1);
    assert g[Column(x, k)][yr] == 1 && Drawn(g, x, y, row)[Column(x, k)][yr] == 0;
  }

  lemma ErasureCollides(g: Screen, x: byte, y: byte, row: byte)
    requires IsScreen(g) && SomeErased(g, Drawn(g, x, y, row))
    ensures Collides(g, x, y, row)
  {
    var h := Drawn(g, x, y, row);
    var c, r :| 0 <= c < ScreenWidthPx && 0 <= r < ScreenHeightPx && g[c][r] == 1 && h[c][r] == 0;
    var k := Offset(x, c);
    ColumnOffset(x, k, c);
    Xor8OnBits(1, SpriteBit(row, k));
    assert k < SpriteColumns(x) && g[Column(x, k)][y % ScreenHeightPx] == 1 && SpriteBit(row, k) == 1;
  }

  /** On a 0/1 screen, drawing the same row a second time reports a
      collision exactly when the first drawing turned some pixel on. */
  lemma RedrawCollides(g: Screen, x: byte, y: byte, row: byte)
    requires IsScreen(g) && IsBinary(g)
    ensures Collides(Drawn(g, x, y, row), x, y, row) <==>
      exists k :: 0 <= k < SpriteColumns(x) && g[Column(x, k)][y % ScreenHeightPx] == 0 && SpriteBit(row, k) == 1
  {
    var h := Drawn(g, x, y, row);
    var yr := y % ScreenHeightPx;
    forall k | 0 <= k < SpriteColumns(x)
      ensures h[Column(x, k)][yr] == 1 && SpriteBit(row, k) == 1 <==> g[Column(x, k)][yr] == 0 && SpriteBit(row, k) == 1
    {
      DrawnAt(g, x, y, row, k);
      Xor8OnBits(g[Column(x, k)][yr], SpriteBit(row, k));
    }
  }

  /** When `x + 8` wraps past 255 the loop never runs: nothing is drawn and
      no collision is reported. */
  lemma OverflowDrawsNothing(g: Screen, x: byte, y: byte, row: byte)
    requires IsScreen(g) && x + SpriteWidthPx > 255
    ensures Drawn(g, x, y, row) == g && !Collides(g, x, y, row)
  {
    XorRowNone(g, x, y, row);
  }

  /** An empty sprite row changes nothing and collides with nothing. */
  lemma EmptyRowDrawsNothing(g: Screen, x: byte, y: byte)
    requires IsScreen(g)
    ensures Drawn(g, x, y, 0) == g && !Collides(g, x, y, 0)
  {
    var h := Drawn(g, x, y, 0);
    forall c, r | 0 <= c < ScreenWidthPx && 0 <= r < ScreenHeightPx
      ensures h[c][r] == g[c][r]
    {
      Xor8Zero(g[c][r]);
    }
    SameScreen(h, g);
  }

  /** On a cleared screen the drawn pixels are the sprite bits themselves and
      nothing collides. */
  lemma DrawOnBlank(x: byte, y: byte, row: byte)
    ensures !Collides(Blank(), x, y, row)
    ensures forall k :: 0 <= k < SpriteColumns(x) ==>
      Drawn(Blank(), x, y, row)[Column(x, k)][y % ScreenHeightPx] == SpriteBit(row, k)
  {
    forall k | 0 <= k < SpriteColumns(x)
      ensures Drawn(Blank(), x, y, row)[Column(x, k)][y % ScreenHeightPx] == SpriteBit(row, k)
    {
      DrawnAt(Blank(), x, y, row, k);
      Xor8OnBits(0, SpriteBit(row, k));
    }
  }

  /** The source as written: a sprite row drawn at x = 250 disappears, where
      the wrapped drawing lights column 250 mod 64 = 58. */
  lemma OverflowLosesSprite()
    ensures Drawn(Blank(), 250, 0, 0x80) == Blank()
    ensures DrawnWrapped(Blank(), 250, 0, 0x80)[58][0] == 1
  {
    OverflowDrawsNothing(Blank(), 250, 0, 0x80);
    DrawnWrappedAt(Blank(), 250, 0, 0x80, 0);
    Xor8OnBits(0, 1);
  }

  /** The corrected drawing XORs all eight sprite bits for every x, and agrees
      with the source whenever `x + 8` does not wrap. */
  lemma DrawnWrappedAt(g: Screen, x: byte, y: byte, row: byte, k: nat)
    requires IsScreen(g) && k < SpriteWidthPx
    ensures DrawnWrapped(g, x, y, row)[Column(x, k)][y % ScreenHeightPx] ==
      Xor8(g[Column(x, k)][y % ScreenHeightPx], SpriteBit(row, k))
    ensures x + SpriteWidthPx < 256 ==> DrawnWrapped(g, x, y, row) == Drawn(g, x, y, row)
  {
    ColumnOffset(x, k, Column(x, k));
  }

  class Display {
    var pixels: array2<byte>
    var draw: bool

    ghost predicate Valid()
      reads this
    {
      pixels.Length0 == ScreenWidthPx && pixels.Length1 == ScreenHeightPx
    }

    /** The current grid as a value. */
    ghost function Pixels(): (g: Screen)
      reads this, pixels
      requires Valid()
      ensures IsScreen(g)
      ensures forall c, r :: 0 <= c < ScreenWidthPx && 0 <= r < ScreenHeightPx ==> g[c][r] == pixels[c, r]
    {
      var a := pixels;
      seq(ScreenWidthPx, c requires 0 <= c < a.Length0 reads a =>
        seq(ScreenHeightPx, r requires 0 <= r < a.Length1 reads a => a[c, r]))
    }

    /** The zero value of the Go struct: every pixel 0, no redraw pending. */
    constructor ()
      ensures Valid() && fresh(pixels)
      ensures Pixels() == Blank() && !draw
    {
      pixels := new byte[ScreenWidthPx, ScreenHeightPx]((c, r) => 0);
      draw := false;
      new;
      SameScreen(Pixels(), Blank());
    }

    /** Sets every pixel to 0; the redraw flag is left as it was. */
    method Clear()
      requires Valid()
      modifies pixels
      ensures Valid() && unchanged(this)
      ensures Pixels() == Blank()
    {
      var x := 0;
      while x < ScreenWidthPx
        invariant 0 <= x <= ScreenWidthPx
        invariant forall c, r :: 0 <= c < x && 0 <= r < ScreenHeightPx ==> pixels[c, r] == 0
      {
        var y := 0;
        while y < ScreenHeightPx
          invariant 0 <= y <= ScreenHeightPx
          invariant forall c, r :: 0 <= c < x && 0 <= r < ScreenHeightPx ==> pixels[c, r] == 0
          invariant forall r :: 0 <= r < y ==> pixels[x, r] == 0
        {
          pixels[x, y] := 0;
          y := y + 1;
        }
        x := x + 1;
      }
      SameScreen(Pixels(), Blank());
    }

    /** `Pixels[c][r] ^= value`: that one pixel changes, no other. */
    method XorPixel(c: nat, r: nat, value: byte)
      requires Valid() && c < ScreenWidthPx && r < ScreenHeightPx
      modifies pixels
      ensures Valid() && unchanged(this)
      ensures pixels[c, r] == Xor8(old(pixels[c, r]), value)
      ensures Pixels() == SetPixel(old(Pixels()), c, r, Xor8(old(pixels[c, r]), value))
    {
      ghost var before := Pixels();
      pixels[c, r] := Xor8(pixels[c, r], value);
      SameScreen(Pixels(), SetPixel(before, c, r, Xor8(old(pixels[c, r]), value)));
    }

    /** One pass of the drawing loop: XORs sprite bit d, already extracted
        as value, onto the pixel under it, and says whether that pixel went
        from 1 to 0. */
    method DrawSpriteBit(ghost g: Screen, x: byte, y: byte, row: byte, ghost d: nat,
                         xIndex: nat, yIndex: nat, value: byte) returns (erasedHere: bool)
      requires Valid() && IsScreen(g) && d < SpriteWidthPx
      requires xIndex == Column(x, d) && yIndex == y % ScreenHeightPx && value == SpriteBit(row, d)
      requires Pixels() == XorRow(g, x, y, row, d)
      modifies pixels
      ensures Valid() && unchanged(this)
      ensures Pixels() == XorRow(g, x, y, row, d + 1)
      ensures erasedHere == (g[xIndex][yIndex] == 1 && SpriteBit(row, d) == 1)
    {
      XorRowStep(g, x, y, row, d);
      ghost var p := pixels[xIndex, yIndex];
      var wasSet := pixels[xIndex, yIndex] == 1;
      XorPixel(xIndex, yIndex, value);
      erasedHere := wasSet && pixels[xIndex, yIndex] == 0;
      ErasedIff(p, value);
    }

    /** XORs one sprite row onto the grid at (x, y), most significant bit
        first, and reports whether a set pixel was erased. */
    method DrawSprite(x: byte, y: byte, row: byte) returns (erased: bool)
      requires Valid()
      modifies pixels
      ensures Valid() && unchanged(this)
      ensures Pixels() == Drawn(old(Pixels()), x, y, row)
      ensures erased == Collides(old(Pixels()), x, y, row)
    {
      ghost var g := Pixels();
      erased := false;
      var bound := AddByte(x, SpriteWidthPx);
      var i: byte := x;
      XorRowNone(g, x, y, row);
      while i < bound
        invariant x <= i && i - x <= SpriteColumns(x)
        invariant bound == if SpriteColumns(x) == 0 then x + SpriteWidthPx - 256 else x + SpriteWidthPx
        invariant Pixels() == XorRow(g, x, y, row, i - x)
        invariant erased == CollidesIn(g, x, y, row, i - x)
      {
        assert SpriteColumns(x) == SpriteWidthPx && bound == x + SpriteWidthPx;
        ghost var d := i - x;
        NoWrap(bound, i, d);
        var xIndex := i % ScreenWidthPx;
        var yIndex := y % ScreenHeightPx;
        var shift := SubByte(SubByte(bound, i), 1);
        SpriteBitAt(row, d, shift);
        var value: byte := Bitwise(And, Shr(row, shift), 1, 8);
        var erasedHere := DrawSpriteBit(g, x, y, row, d, xIndex, yIndex, value);
        CollidesInStep(g, x, y, row, d);
        if erasedHere {
          erased := true;
        }
        i := AddByte(i, 1);
      }
    }

    /** The corrected drawing: the column counter cannot wrap, so all eight
        sprite bits are XORed for every x, onto columns x, x+1, ... modulo
        the screen width; the result reports an erased pixel as before. */
    method DrawSpriteWrapped(x: byte, y: byte, row: byte) returns (erased: bool)
      requires Valid()
      modifies pixels
      ensures Valid() && unchanged(this)
      ensures Pixels() == DrawnWrapped(old(Pixels()), x, y, row)
      ensures erased == CollidesIn(old(Pixels()), x, y, row, SpriteWidthPx)
    {
      ghost var g := Pixels();
      erased := false;
      XorRowNone(g, x, y, row);
      var k := 0;
      while k < SpriteWidthPx
        invariant 0 <= k <= SpriteWidthPx
        invariant Pixels() == XorRow(g, x, y, row, k)
        invariant erased == CollidesIn(g, x, y, row, k)
      {
        var xIndex := (x + k) % ScreenWidthPx;
        var yIndex := y % ScreenHeightPx;
        SpriteBitAt(row, k, SpriteWidthPx - 1 - k);
        var value: byte := Bitwise(And, Shr(row, SpriteWidthPx - 1 - k), 1, 8);
        var erasedHere := DrawSpriteBit(g, x, y, row, k, xIndex, yIndex, value);
        CollidesInStep(g, x, y, row, k);
        if erasedHere {
          erased := true;
        }
        k := k + 1;
      }
    }
  }
}
