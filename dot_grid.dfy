/** The background dot grid: the colour parser, the call throttle, and the layout of the
    dots. Drawing, colour interpolation and the shock animation are not part of the model. */
module DotGrid {
  import opened Basics

  // ---------------------------------------------------------------- hexToRgb

  datatype Rgb = Rgb(r: int, g: int, b: int)

  /** `[a-f\d]` under the `i` flag. */
  predicate IsHex(c: char) { ('0' <= c <= '9') || ('a' <= c <= 'f') || ('A' <= c <= 'F') }

  function HexValue(c: char): (v: nat)
    requires IsHex(c)
    ensures v < 16
  {
    if '0' <= c <= '9' then c as int - '0' as int
    else if 'a' <= c <= 'f' then c as int - 'a' as int + 10
    else c as int - 'A' as int + 10
  }

  /** `parseInt(pair, 16)` of two hex digits. */
  function PairValue(s: string, i: nat): (v: int)
    requires i + 2 <= |s| && IsHex(s[i]) && IsHex(s[i + 1])
    ensures 0 <= v <= 255
  {
    16 * HexValue(s[i]) + HexValue(s[i + 1])
  }

  predicate AllHex(s: string, from: nat)
    requires from <= |s|
  {
    forall i :: from <= i < |s| ==> IsHex(s[i])
  }

  /** `^#?([a-f\d]{2})([a-f\d]{2})([a-f\d]{2})$`: six hex digits, optionally after `#`. */
  predicate Matches(s: string) {
    (|s| == 6 && AllHex(s, 0)) || (|s| == 7 && s[0] == '#' && AllHex(s, 1))
  }

  /** The colour of `hex`, or black when the pattern does not match. */
  function HexToRgb(hex: string): (c: Rgb)
    ensures 0 <= c.r <= 255 && 0 <= c.g <= 255 && 0 <= c.b <= 255
    ensures !Matches(hex) ==> c == Rgb(0, 0, 0)
  {
    if !Matches(hex) then Rgb(0, 0, 0)
    else
      var o := if |hex| == 7 then 1 else 0;
      Rgb(PairValue(hex, o), PairValue(hex, o + 2), PairValue(hex, o + 4))
  }

  function HexDigit(v: nat): (c: char)
    requires v < 16
    ensures IsHex(c) && HexValue(c) == v
  {
    if v < 10 then ('0' as int + v) as char else ('a' as int + v - 10) as char
  }

  /** A colour written as `#rrggbb`, lower-case. */
  function RgbToHex(c: Rgb): (s: string)
    requires 0 <= c.r <= 255 && 0 <= c.g <= 255 && 0 <= c.b <= 255
    ensures |s| == 7 && s[0] == '#' && AllHex(s, 1)
  {
    "#" + [HexDigit(c.r / 16), HexDigit(c.r % 16), HexDigit(c.g / 16), HexDigit(c.g % 16),
           HexDigit(c.b / 16), HexDigit(c.b % 16)]
  }

  /** Writing a colour and parsing it back gives the same colour, with or without `#`. */
  lemma RgbRoundTrip(c: Rgb)
    requires 0 <= c.r <= 255 && 0 <= c.g <= 255 && 0 <= c.b <= 255
    ensures HexToRgb(RgbToHex(c)) == c
    ensures HexToRgb(RgbToHex(c)[1..]) == c
  {
    var s := RgbToHex(c);
    assert Matches(s);
    var t := s[1..];
    assert forall i :: 0 <= i < 6 ==> t[i] == s[i + 1];
    assert Matches(t);
  }

  /** A letter folded to lower case; any other character is kept. */
  function LowerAsciiChar(c: char): char {
    if 'A' <= c <= 'Z' then (c as int + 32) as char else c
  }

  /** The string with its ASCII letters folded to lower case. */
  function LowerAscii(s: string): string {
    seq(|s|, i requires 0 <= i < |s| => LowerAsciiChar(s[i]))
  }

  /** A digit and its lower-case form are both digits or both not, with the same value;
      writing the value back gives the lower-case digit. */
  lemma DigitIgnoresCase(c: char)
    ensures IsHex(c) <==> IsHex(LowerAsciiChar(c))
    ensures IsHex(c) ==> HexValue(c) == HexValue(LowerAsciiChar(c))
    ensures IsHex(c) ==> HexDigit(HexValue(c)) == LowerAsciiChar(c)
  {
  }

  /** The two digits written back from a pair's value are the pair in lower case. */
  lemma PairWrite(s: string, i: nat)
    requires i + 2 <= |s| && IsHex(s[i]) && IsHex(s[i + 1])
    ensures HexDigit(PairValue(s, i) / 16) == LowerAsciiChar(s[i])
    ensures HexDigit(PairValue(s, i) % 16) == LowerAsciiChar(s[i + 1])
  {
    var hi, lo := HexValue(s[i]), HexValue(s[i + 1]);
    assert PairValue(s, i) / 16 == hi && PairValue(s, i) % 16 == lo;
    DigitIgnoresCase(s[i]);
    DigitIgnoresCase(s[i + 1]);
  }

  /** The parser ignores case: a string and its lower-case form match alike and give the
      same colour. */
  lemma HexIgnoresCase(s: string)
    ensures Matches(s) <==> Matches(LowerAscii(s))
    ensures HexToRgb(s) == HexToRgb(LowerAscii(s))
  {
    var t := LowerAscii(s);
    forall i | 0 <= i < |s| ensures (IsHex(s[i]) <==> IsHex(t[i])) && (IsHex(s[i]) ==> HexValue(s[i]) == HexValue(t[i])) {
      DigitIgnoresCase(s[i]);
    }
  }

  /** Every colour the pattern accepts is the one whose `#rrggbb` form is the string's six
      digits in lower case: digit pairs 1-2, 3-4 and 5-6 give red, green and blue, in
      either case. */
  lemma ParseThenWrite(hex: string)
    requires Matches(hex)
    ensures RgbToHex(HexToRgb(hex)) == "#" + LowerAscii(hex[|hex| - 6..])
  {
    var o := |hex| - 6;
    var c := HexToRgb(hex);
    assert c == Rgb(PairValue(hex, o), PairValue(hex, o + 2), PairValue(hex, o + 4));
    PairWrite(hex, o);
    PairWrite(hex, o + 2);
    PairWrite(hex, o + 4);
    WrittenDigits(c);
    var w := RgbToHex(c);
    var l := "#" + LowerAscii(hex[o..]);
    assert |w| == 7 && |l| == 7 && w[0] == l[0];
    assert forall i :: 1 <= i < 7 ==> l[i] == LowerAsciiChar(hex[o + i - 1]);
    assert w[1] == l[1] && w[2] == l[2] && w[3] == l[3] && w[4] == l[4] && w[5] == l[5] && w[6] == l[6];
    SameSeven(w, l);
  }

  lemma SameSeven(w: string, l: string)
    requires |w| == 7 && |l| == 7
    requires w[0] == l[0] && w[1] == l[1] && w[2] == l[2] && w[3] == l[3]
    requires w[4] == l[4] && w[5] == l[5] && w[6] == l[6]
    ensures w == l
  {
    assert forall i :: 0 <= i < 7 ==> w[i] == l[i];
  }

  lemma WrittenDigits(c: Rgb)
    requires 0 <= c.r <= 255 && 0 <= c.g <= 255 && 0 <= c.b <= 255
    ensures var w := RgbToHex(c);
      w[0] == '#' && w[1] == HexDigit(c.r / 16) && w[2] == HexDigit(c.r % 16) &&
      w[3] == HexDigit(c.g / 16) && w[4] == HexDigit(c.g % 16) &&
      w[5] == HexDigit(c.b / 16) && w[6] == HexDigit(c.b % 16)
  {
  }

  /** The pattern ignores case, and needs exactly six digits. */
  lemma HexExamples()
    ensures HexToRgb("#5227FF") == Rgb(82, 39, 255)
    ensures HexToRgb("#5227ff") == HexToRgb("5227FF")
    ensures HexToRgb("#fff") == Rgb(0, 0, 0)
    ensures HexToRgb("#5227FG") == Rgb(0, 0, 0)
  {
    assert !IsHex('G');
    assert Matches("#5227FF") && Matches("#5227ff") && Matches("5227FF");
  }

  // ---------------------------------------------------------------- throttle

  /** Consecutive forwarded calls are at least `limit` apart. */
  predicate Spaced(calls: seq<real>, limit: real) {
    forall i :: 0 <= i < |calls| - 1 ==> calls[i + 1] - calls[i] >= limit
  }

  /** With a non-negative limit, any two forwarded calls are at least `limit` apart. */
  lemma {:induction false} SpacedPairwise(calls: seq<real>, limit: real, i: int, j: int)
    requires limit >= 0.0 && Spaced(calls, limit)
    requires 0 <= i < j < |calls|
    ensures calls[j] - calls[i] >= limit
    decreases j - i
  {
    if j > i + 1 {
      SpacedPairwise(calls, limit, i, j - 1);
    }
  }

  /** The closure `throttle(func, limit)` returns, with its one variable `lastCall`. The
      forwarded call times are kept as ghost history. */
  class Throttle {
    const limit: real
    var lastCall: real
    ghost var forwarded: seq<real>

    ghost predicate Valid()
      reads this
    {
      && Spaced(forwarded, limit)
      && (forwarded == [] ==> lastCall == 0.0)
      && (forwarded != [] ==> lastCall == forwarded[|forwarded| - 1] && forwarded[0] >= limit)
    }

    constructor (limit: real)
      ensures Valid() && this.limit == limit && lastCall == 0.0 && forwarded == []
    {
      this.limit := limit;
      lastCall := 0.0;
      forwarded := [];
    }

    /** One call at time `now`: forwarded exactly when at least `limit` has passed since
        the last forwarded call (since 0 for the first); a rejected call changes nothing. */
    method Call(now: real) returns (forward: bool)
      requires Valid()
      modifies this
      ensures Valid()
      ensures forward <==> now - old(lastCall) >= limit
      ensures forward ==> lastCall == now && forwarded == old(forwarded) + [now]
      ensures !forward ==> lastCall == old(lastCall) && forwarded == old(forwarded)
    {
      forward := now - lastCall >= limit;
      if forward {
        lastCall := now;
        forwarded := forwarded + [now];
      }
    }
  }

  /** Two calls at the very start: the first is forwarded only once `limit` has passed
      since time 0, and a second call too soon after it is dropped. */
  method ThrottleStart(limit: real) returns (early: bool, first: bool, again: bool)
    requires limit > 0.0
    ensures !early && first && !again
  {
    var t := new Throttle(limit);
    early := t.Call(limit / 2.0);
    first := t.Call(limit);
    again := t.Call(limit + limit / 2.0);
  }

  // ---------------------------------------------------------------- buildGrid

  datatype Dot = Dot(cx: real, cy: real, xOffset: real, yOffset: real)

  function DotAt(x: nat, y: nat, cell: real): Dot {
    Dot(x as real * cell + cell / 2.0, y as real * cell + cell / 2.0, 0.0, 0.0)
  }

  function RowDots(y: nat, cols: nat, cell: real): (r: seq<Dot>)
    ensures |r| == cols && forall x :: 0 <= x < cols ==> r[x] == DotAt(x, y, cell)
  {
    seq(cols, x requires 0 <= x < cols => DotAt(x, y, cell))
  }

  /** The first `rows` rows of the grid, one row after another. */
  function Grid(rows: nat, cols: nat, cell: real): seq<Dot> {
    if rows == 0 then [] else Grid(rows - 1, cols, cell) + RowDots(rows - 1, cols, cell)
  }

  lemma {:induction false} GridLength(rows: nat, cols: nat, cell: real)
    ensures |Grid(rows, cols, cell)| == rows * cols
  {
    if rows > 0 {
      GridLength(rows - 1, cols, cell);
      assert (rows - 1) * cols + cols == rows * cols;
    }
  }

  /** Row `y`, column `x` lies inside the first `r` rows when `y < r`. */
  lemma IndexBound(y: nat, x: nat, r: nat, cols: nat)
    requires y < r && x < cols
    ensures y * cols + x < r * cols
  {
    assert y * cols + x < y * cols + cols == (y + 1) * cols;
    MulLe(y + 1, r, cols);
  }

  lemma {:induction false} GridAt(rows: nat, cols: nat, cell: real, y: nat, x: nat)
    requires y < rows && x < cols
    ensures y * cols + x < |Grid(rows, cols, cell)|
    ensures Grid(rows, cols, cell)[y * cols + x] == DotAt(x, y, cell)
  {
    GridLength(rows, cols, cell);
    GridLength(rows - 1, cols, cell);
    IndexBound(y, x, rows, cols);
    if y < rows - 1 {
      IndexBound(y, x, rows - 1, cols);
      GridAt(rows - 1, cols, cell, y, x);
    } else {
      assert y * cols == (rows - 1) * cols;
    }
  }

  /** The dot of column `x` in row `y` sits at index `y * cols + x` of `g`, centred in its
      cell and without offset. */
  predicate DotIsAt(g: seq<Dot>, cols: nat, cell: real, y: nat, x: nat) {
    y * cols + x < |g| && g[y * cols + x] == DotAt(x, y, cell)
  }

  /** The grid has `rows * cols` dots, the dot of column `x` in row `y` at `y * cols + x`
      (row-major order). */
  lemma GridShape(rows: nat, cols: nat, cell: real)
    ensures |Grid(rows, cols, cell)| == rows * cols
    ensures forall y: nat, x: nat :: y < rows && x < cols ==> DotIsAt(Grid(rows, cols, cell), cols, cell, y, x)
  {
    GridLength(rows, cols, cell);
    forall y: nat, x: nat | y < rows && x < cols
      ensures DotIsAt(Grid(rows, cols, cell), cols, cell, y, x)
    {
      GridAt(rows, cols, cell, y, x);
    }
  }

  function Max0(n: int): nat { if n < 0 then 0 else n }

  /** `buildGrid`: `cols = floor(width / cell)` and `rows = floor(height / cell)` (no dots
      when either is negative), then the dots row by row, column by column. A zero cell
      size is excluded: the division then gives an infinite or undefined count. */
  method BuildGrid(dotSize: real, gap: real, width: real, height: real) returns (dots: seq<Dot>)
    requires dotSize + gap != 0.0
    ensures var cell := dotSize + gap;
      dots == Grid(Max0((height / cell).Floor), Max0((width / cell).Floor), cell)
  {
    var cell := dotSize + gap;
    var cols := (width / cell).Floor;
    var rows := (height / cell).Floor;
    dots := [];
    var y := 0;
    while y < rows
      invariant 0 <= y <= Max0(rows)
      invariant dots == Grid(y, Max0(cols), cell)
    {
      var x := 0;
      while x < cols
        invariant 0 <= x <= Max0(cols)
        invariant dots == Grid(y, Max0(cols), cell) + RowDots(y, Max0(cols), cell)[..x]
      {
        dots := dots + [DotAt(x, y, cell)];
        assert RowDots(y, Max0(cols), cell)[..x + 1] == RowDots(y, Max0(cols), cell)[..x] + [DotAt(x, y, cell)];
        x := x + 1;
      }
      assert RowDots(y, Max0(cols), cell)[..Max0(cols)] == RowDots(y, Max0(cols), cell);
      y := y + 1;
    }
  }

  /** With the default dot size 5 and gap 15, a 100 by 45 area holds two rows of five. */
  lemma DefaultGridExample()
    ensures |Grid(Max0((45.0 / 20.0).Floor), Max0((100.0 / 20.0).Floor), 20.0)| == 10
  {
    assert (45.0 / 20.0).Floor == 2;
    assert (100.0 / 20.0).Floor == 5;
    GridShape(2, 5, 20.0);
  }
}
