// The integer line rasteriser on a frame of packed bits (LCDGrph_Pixel, LCDGrph_Line).

module LcdLine {
  import opened Arith

  datatype Point = Point(x: nat, y: nat)

  function Flip(p: Point): Point {
    Point(p.y, p.x)
  }

  function Dist(a: int, b: int): nat {
    if a <= b then b - a else a - b
  }

  // How far the line has moved aside after k of `run` steps, when it moves `rise` in all: k * rise / run, rounded
  function Rounded(k: nat, rise: nat, run: nat): nat
    requires run > 0
  {
    (run / 2 + k * rise) / run
  }

  // What the accumulator holds then
  function Left(k: nat, rise: nat, run: nat): nat
    requires run > 0
  {
    (run / 2 + k * rise) % run
  }

  // The k-th point of a line that advances in x
  function ShallowAt(s: Point, e: Point, k: nat): Point
    requires s.x < e.x
  {
    Point(s.x + k, s.y + Rounded(k, Dist(s.y, e.y), e.x - s.x))
  }

  function Shallow(s: Point, e: Point): seq<Point> {
    if s.x < e.x then seq(e.x - s.x, k requires k >= 0 => ShallowAt(s, e, k)) else []
  }

  function Flipped(ps: seq<Point>): seq<Point> {
    seq(|ps|, k requires 0 <= k < |ps| => Flip(ps[k]))
  }

  predicate IsShallow(a: Point, b: Point) {
    Dist(a.x, b.x) >= Dist(a.y, b.y)
  }

  // The points LCDGrph_Line sets for a line between a and b, in turn
  function Drawn(a: Point, b: Point): seq<Point> {
    if IsShallow(a, b) then
      if a.x <= b.x then Shallow(a, b) else Shallow(b, a)
    else
      Flipped(if a.y <= b.y then Shallow(Flip(a), Flip(b)) else Shallow(Flip(b), Flip(a)))
  }

  // The rounding is to the nearest.
  lemma Nearest(k: nat, rise: nat, run: nat)
    requires 0 < run
    ensures 2 * Rounded(k, rise, run) * run <= 2 * k * rise + run
    ensures 2 * k * rise <= 2 * Rounded(k, rise, run) * run + run
  {
    Quotient(run / 2 + k * rise, run);
  }

  // A line never moves aside by more than it has to in all.
  lemma NotTooFar(k: nat, rise: nat, run: nat)
    requires 0 < run && k <= run
    ensures Rounded(k, rise, run) <= rise
  {
    var q := Rounded(k, rise, run);
    Quotient(run / 2 + k * rise, run);
    if q > rise {
      Products(k, run, rise);
      Products(rise + 1, q, run);
    }
  }

  lemma AtFirst(rise: nat, run: nat)
    requires 0 < run
    ensures Rounded(0, rise, run) == 0 && Left(0, rise, run) == run / 2
  {
    Divides(run / 2 + 0 * rise, run, 0, run / 2);
  }

  // One addition to the accumulator, and one comparison, give the next rounded value.
  lemma Accumulated(k: nat, rise: nat, run: nat)
    requires 0 < run && rise <= run
    ensures var acc := Left(k, rise, run);
            && Rounded(k + 1, rise, run) == Rounded(k, rise, run) + (if acc + rise >= run then 1 else 0)
            && Left(k + 1, rise, run) == acc + rise - (if acc + rise >= run then run else 0)
  {
    OneMore(k, rise);
    Carried(run / 2 + k * rise, rise, run);
  }

  lemma Carried(total: nat, rise: nat, run: nat)
    requires 0 < run && rise <= run
    ensures var acc := total % run;
            && (total + rise) / run == total / run + (if acc + rise >= run then 1 else 0)
            && (total + rise) % run == acc + rise - (if acc + rise >= run then run else 0)
  {
    var q, acc := total / run, total % run;
    Quotient(total, run);
    CarriedFrom(total, q, acc, rise, run);
  }

  lemma CarriedFrom(total: nat, q: nat, acc: nat, rise: nat, run: nat)
    requires total == run * q + acc && acc < run && rise <= run
    ensures (total + rise) / run == q + (if acc + rise >= run then 1 else 0)
    ensures (total + rise) % run == acc + rise - (if acc + rise >= run then run else 0)
  {
    if acc + rise >= run {
      OneMore(q, run);
      Divides(total + rise, run, q + 1, acc + rise - run);
    } else {
      Divides(total + rise, run, q, acc + rise);
    }
  }

  // ---- the frame: eight rows of pixels to a byte ----

  function Mask(k: int): bv8 {
    match k
    case 0 => 1
    case 1 => 2
    case 2 => 4
    case 3 => 8
    case 4 => 16
    case 5 => 32
    case 6 => 64
    case _ => 128
  }

  predicate Bit(b: bv8, k: int) {
    b & Mask(k) != 0
  }

  lemma OneBit(b: bv8, k: int, j: int)
    requires 0 <= k < 8 && 0 <= j < 8
    ensures Bit(b | Mask(k), j) == (j == k || Bit(b, j))
    ensures Bit(b & !Mask(k), j) == (j != k && Bit(b, j))
  {
  }

  // The byte and the bit of a point
  datatype Place = Place(index: int, bit: int)

  function PlaceOf(width: nat, p: Point): Place {
    Place(width * (p.y / 8) + p.x, p.y % 8)
  }

  predicate Fits(size: nat, width: nat, p: Point) {
    p.x < width && PlaceOf(width, p).index < size
  }

  lemma PlacesDiffer(width: nat, p: Point, q: Point)
    requires p.x < width && q.x < width && PlaceOf(width, p) == PlaceOf(width, q)
    ensures p == q
  {
    var m, n := p.y / 8, q.y / 8;
    if m < n {
      Products(m + 1, n, width);
    } else if n < m {
      Products(n + 1, m, width);
    }
  }

  predicate Touched(width: nat, ps: seq<Point>, at: Place) {
    exists j | 0 <= j < |ps| :: PlaceOf(width, ps[j]) == at
  }

  predicate SetRight(was: bv8, now: bv8, width: nat, ps: seq<Point>, on: bool, at: Place) {
    Bit(now, at.bit) == if Touched(width, ps, at) then on else Bit(was, at.bit)
  }

  // The points are on (or off), and every other bit of the frame is as it was.
  predicate Painted(was: seq<bv8>, now: seq<bv8>, width: nat, ps: seq<Point>, on: bool) {
    && |now| == |was|
    && forall i, k | 0 <= i < |was| && 0 <= k < 8 :: SetRight(was[i], now[i], width, ps, on, Place(i, k))
  }

  lemma OnePainted(was: seq<bv8>, now: seq<bv8>, width: nat, p: Point, on: bool)
    requires Fits(|was|, width, p)
    requires var at := PlaceOf(width, p);
             now == was[at.index := if on then was[at.index] | Mask(at.bit) else was[at.index] & !Mask(at.bit)]
    ensures Painted(was, now, width, [p], on)
  {
    hide Bit, Mask;
    var at := PlaceOf(width, p);
    forall i, k | 0 <= i < |was| && 0 <= k < 8
      ensures SetRight(was[i], now[i], width, [p], on, Place(i, k))
    {
      OneBit(was[at.index], at.bit, k);
      assert Touched(width, [p], Place(i, k)) == (PlaceOf(width, [p][0]) == Place(i, k));
    }
  }

  lemma PaintedMore(was: seq<bv8>, mid: seq<bv8>, now: seq<bv8>, width: nat, ps: seq<Point>, p: Point, on: bool)
    requires Painted(was, mid, width, ps, on) && Painted(mid, now, width, [p], on)
    ensures Painted(was, now, width, ps + [p], on)
  {
    forall i, k | 0 <= i < |was| && 0 <= k < 8
      ensures SetRight(was[i], now[i], width, ps + [p], on, Place(i, k))
    {
      var at := Place(i, k);
      assert SetRight(was[i], mid[i], width, ps, on, at) && SetRight(mid[i], now[i], width, [p], on, at);
      TouchedMore(width, ps, p, at);
    }
  }

  lemma TouchedMore(width: nat, ps: seq<Point>, p: Point, at: Place)
    ensures Touched(width, ps + [p], at) == (Touched(width, ps, at) || Touched(width, [p], at))
  {
    if Touched(width, ps, at) {
      var j :| 0 <= j < |ps| && PlaceOf(width, ps[j]) == at;
      assert PlaceOf(width, (ps + [p])[j]) == at;
    }
    if Touched(width, [p], at) {
      assert PlaceOf(width, (ps + [p])[|ps|]) == at;
    }
  }

  predicate Lit(frame: seq<bv8>, width: nat, p: Point)
    requires Fits(|frame|, width, p)
  {
    Bit(frame[PlaceOf(width, p).index], p.y % 8)
  }

  function Digit(b: bv8, k: int): nat {
    if Bit(b, k) then 1 else 0
  }

  lemma WholeByte(b: bv8)
    ensures b as int == Digit(b, 0) + 2 * Digit(b, 1) + 4 * Digit(b, 2) + 8 * Digit(b, 3)
                        + 16 * Digit(b, 4) + 32 * Digit(b, 5) + 64 * Digit(b, 6) + 128 * Digit(b, 7)
  {
  }

  lemma SmallPowers()
    ensures Pow2(0) == 1 && Pow2(1) == 2 && Pow2(2) == 4 && Pow2(3) == 8
    ensures Pow2(4) == 16 && Pow2(5) == 32 && Pow2(6) == 64 && Pow2(7) == 128
  {
    assert Pow2(3) == 8;
    assert Pow2(5) == 32;
  }

  lemma DigitAt(n: nat, p: nat, high: nat, d: nat, low: nat)
    requires low < p && d < 2 && n == (2 * high + d) * p + low
    ensures n / p % 2 == d
  {
    Divides(n, p, 2 * high + d, low);
  }

  lemma DigitOfSum(n: nat, k: nat, a: nat, b: nat, c: nat, d: nat, e: nat, f: nat, g: nat, h: nat)
    requires a < 2 && b < 2 && c < 2 && d < 2 && e < 2 && f < 2 && g < 2 && h < 2
    requires k < 8 && n == a + 2 * b + 4 * c + 8 * d + 16 * e + 32 * f + 64 * g + 128 * h
    ensures n / Pow2(k) % 2 == [a, b, c, d, e, f, g, h][k]
  {
    SmallPowers();
    hide Pow2;
    match k
    case 0 => DigitAt(n, 1, b + 2 * c + 4 * d + 8 * e + 16 * f + 32 * g + 64 * h, a, 0);
    case 1 => DigitAt(n, 2, c + 2 * d + 4 * e + 8 * f + 16 * g + 32 * h, b, a);
    case 2 => DigitAt(n, 4, d + 2 * e + 4 * f + 8 * g + 16 * h, c, a + 2 * b);
    case 3 => DigitAt(n, 8, e + 2 * f + 4 * g + 8 * h, d, a + 2 * b + 4 * c);
    case 4 => DigitAt(n, 16, f + 2 * g + 4 * h, e, a + 2 * b + 4 * c + 8 * d);
    case 5 => DigitAt(n, 32, g + 2 * h, f, a + 2 * b + 4 * c + 8 * d + 16 * e);
    case 6 => DigitAt(n, 64, h, g, a + 2 * b + 4 * c + 8 * d + 16 * e + 32 * f);
    case _ => DigitAt(n, 128, 0, h, a + 2 * b + 4 * c + 8 * d + 16 * e + 32 * f + 64 * g);
  }

  lemma BitOfSum(b: bv8, k: nat, n: nat)
    requires k < 8 && n == Digit(b, 0) + 2 * Digit(b, 1) + 4 * Digit(b, 2) + 8 * Digit(b, 3)
                           + 16 * Digit(b, 4) + 32 * Digit(b, 5) + 64 * Digit(b, 6) + 128 * Digit(b, 7)
    ensures n / Pow2(k) % 2 == Digit(b, k)
  {
    hide Bit, Pow2;
    DigitOfSum(n, k, Digit(b, 0), Digit(b, 1), Digit(b, 2), Digit(b, 3),
               Digit(b, 4), Digit(b, 5), Digit(b, 6), Digit(b, 7));
  }

  lemma BitIsDigit(b: bv8, k: nat)
    requires k < 8
    ensures Bit(b, k) <==> b as int / Pow2(k) % 2 == 1
  {
    WholeByte(b);
    BitOfSum(b, k, b as int);
  }

  // A point is a binary digit of a byte as a number: the lowest of the eight is the first row.
  lemma LitIsDigit(frame: seq<bv8>, width: nat, p: Point)
    requires Fits(|frame|, width, p)
    ensures 0 <= width * (p.y / 8) + p.x < |frame|
    ensures Lit(frame, width, p) <==> frame[width * (p.y / 8) + p.x] as int / Pow2(p.y % 8) % 2 == 1
  {
    BitIsDigit(frame[PlaceOf(width, p).index], p.y % 8);
  }

  lemma PaintedIsLit(was: seq<bv8>, now: seq<bv8>, width: nat, ps: seq<Point>, on: bool, q: Point)
    requires Painted(was, now, width, ps, on) && Fits(|was|, width, q)
    requires forall j | 0 <= j < |ps| :: Fits(|was|, width, ps[j])
    ensures Lit(now, width, q) == if q in ps then on else Lit(was, width, q)
  {
    var at := PlaceOf(width, q);
    assert SetRight(was[at.index], now[at.index], width, ps, on, Place(at.index, at.bit));
    if q in ps {
      var j :| 0 <= j < |ps| && ps[j] == q;
    } else if Touched(width, ps, at) {
      var j :| 0 <= j < |ps| && PlaceOf(width, ps[j]) == at;
      PlacesDiffer(width, ps[j], q);
    }
  }

  // ---- the subtraction of unsigned words, and abs() of the result read as a signed one ----

  const WORD: int := 0x1_0000_0000
  const LIMIT: int := 0x8000_0000

  function Minus(a: nat, b: nat): nat
    requires a < WORD && b < WORD
  {
    (a - b) % WORD
  }

  function Abs(w: nat): nat
    requires w < WORD
  {
    if w >= LIMIT then WORD - w else w
  }

  predicate Near(p: Point) {
    p.x < 0x8000_0000 && p.y < 0x8000_0000
  }

  // stLCDDrv_Canvas_t
  class Canvas {
    const width: nat
    const frame: array<bv8>

    constructor (width: nat, frame: array<bv8>)
      ensures this.width == width && this.frame == frame
    {
      this.width := width;
      this.frame := frame;
    }

    predicate Holds(ps: seq<Point>) {
      forall j | 0 <= j < |ps| :: Fits(frame.Length, width, ps[j])
    }

    // LCDGrph_Pixel
    method Pixel(p: Point, on: bool)
      requires Fits(frame.Length, width, p)
      modifies frame
      ensures Painted(old(frame[..]), frame[..], width, [p], on)
    {
      hide Painted, Mask;
      var line, mask := p.y / 8, Mask(p.y % 8);
      var at := width * line + p.x;
      ghost var was := frame[..];
      if !on {
        frame[at] := frame[at] & !mask;
      } else {
        frame[at] := frame[at] | mask;
      }
      OnePainted(was, frame[..], width, p, on);
    }

    // The loop of the branch that advances in x, and with `flip` of the one that advances in y
    method Walk(s: Point, e: Point, flip: bool, on: bool)
      requires s.x < e.x && Near(s) && Near(e) && Dist(s.y, e.y) <= e.x - s.x
      requires Holds(if flip then Flipped(Shallow(s, e)) else Shallow(s, e))
      modifies frame
      ensures Painted(old(frame[..]), frame[..], width, if flip then Flipped(Shallow(s, e)) else Shallow(s, e), on)
    {
      hide Painted, Fits, Rounded, Left;
      ghost var ps := if flip then Flipped(Shallow(s, e)) else Shallow(s, e);
      var run, rise, inc, acc := Deltas(s, e);
      var x, y := s.x, s.y;
      NothingPainted(frame[..], width, on);
      AtFirst(rise, run);
      assert ps[..0] == [];
      while x < e.x
        invariant s.x <= x <= e.x
        invariant y == s.y + Rounded(x - s.x, rise, run) && acc == Left(x - s.x, rise, run)
        invariant Painted(old(frame[..]), frame[..], width, ps[..x - s.x], on)
      {
        ghost var k := x - s.x;
        ghost var was := frame[..];
        var p := if flip then Point(y, x) else Point(x, y);
        assert p == ps[k];
        Pixel(p, on);
        PaintedMore(old(frame[..]), was, frame[..], width, ps[..k], p, on);
        assert ps[..k] + [p] == ps[..k + 1];
        Accumulated(k, rise, run);
        acc := acc + rise;
        if acc >= run {
          y := y + inc;
          acc := acc - run;
        }
        x := x + 1;
      }
      assert ps[..|ps|] == ps;
    }

    // LCDGrph_Line
    method Line(a: Point, b: Point, color: nat)
      requires Near(a) && Near(b) && Holds(Drawn(a, b))
      modifies frame
      ensures Painted(old(frame[..]), frame[..], width, Drawn(a, b), color != 0)
    {
      hide Painted, Fits;
      var on := color != 0;
      if a.x == b.x {
        StraightIsDrawn(Flip(a), Flip(b));
        if a.y <= b.y {
          Straight(a.y, b.y, a.x, true, on, Drawn(a, b));
        } else {
          Straight(b.y, a.y, a.x, true, on, Drawn(a, b));
        }
      } else if a.y == b.y {
        StraightIsDrawn(a, b);
        if a.x <= b.x {
          Straight(a.x, b.x, a.y, false, on, Drawn(a, b));
        } else {
          Straight(b.x, a.x, a.y, false, on, Drawn(a, b));
        }
      } else if Dist(a.x, b.x) >= Dist(a.y, b.y) {
        if a.x <= b.x {
          Walk(a, b, false, on);
        } else {
          Walk(b, a, false, on);
        }
      } else {
        if a.y <= b.y {
          Walk(Flip(a), Flip(b), true, on);
        } else {
          Walk(Flip(b), Flip(a), true, on);
        }
      }
    }

    // The loops for the horizontal line and, with `flip`, for the vertical one
    method Straight(from: nat, to: nat, other: nat, flip: bool, on: bool, ghost ps: seq<Point>)
      requires from <= to && |ps| == to - from && Holds(ps)
      requires forall k | 0 <= k < |ps| :: ps[k] == if flip then Point(other, from + k) else Point(from + k, other)
      modifies frame
      ensures Painted(old(frame[..]), frame[..], width, ps, on)
    {
      hide Painted, Fits;
      NothingPainted(frame[..], width, on);
      assert ps[..0] == [];
      var i := from;
      while i < to
        invariant from <= i <= to
        invariant Painted(old(frame[..]), frame[..], width, ps[..i - from], on)
      {
        ghost var was := frame[..];
        var p := if flip then Point(other, i) else Point(i, other);
        assert p == ps[i - from];
        Pixel(p, on);
        PaintedMore(old(frame[..]), was, frame[..], width, ps[..i - from], p, on);
        assert ps[..i - from] + [p] == ps[..i + 1 - from];
        i := i + 1;
      }
      assert ps[..|ps|] == ps;
    }
  }

  // x_delta, |y_delta|, inc and the first acc: the delta is unsigned, so inc is 1 whichever way the line goes
  method Deltas(s: Point, e: Point) returns (run: nat, rise: nat, inc: int, acc: nat)
    requires s.x < e.x && Near(s) && Near(e)
    ensures run == e.x - s.x && rise == Dist(s.y, e.y) && inc == 1 && acc == run / 2
  {
    run := Minus(e.x, s.x);
    rise := Minus(e.y, s.y);
    inc := if rise >= 0 then 1 else -1;
    rise := Abs(rise);
    acc := run / 2;
  }

  lemma NothingPainted(frame: seq<bv8>, width: nat, on: bool)
    ensures Painted(frame, frame, width, [], on)
  {
  }

  // The branches for straight lines draw what the general one would.
  lemma StraightIsDrawn(a: Point, b: Point)
    requires a.y == b.y
    ensures var from := if a.x <= b.x then a.x else b.x;
            && |Drawn(a, b)| == Dist(a.x, b.x) == |Drawn(Flip(a), Flip(b))|
            && (forall k | 0 <= k < Dist(a.x, b.x) ::
                  Drawn(a, b)[k] == Point(from + k, a.y) && Drawn(Flip(a), Flip(b))[k] == Point(a.y, from + k))
  {
    var run := Dist(a.x, b.x);
    if run > 0 {
      forall k: nat | k < run
        ensures Rounded(k, 0, run) == 0
      {
        Divides(run / 2 + k * 0, run, 0, run / 2);
      }
    }
  }

  // ---- what a line is ----

  predicate InRange(s: Point, e: Point, p: Point) {
    s.x <= p.x < e.x
  }

  // Between p and the line from s to e, measured aside and counted in parts of a pixel, e.x - s.x to a pixel
  function Off(s: Point, e: Point, p: Point): int {
    (p.x - s.x) * (e.y - s.y) - (p.y - s.y) * (e.x - s.x)
  }

  predicate Close(s: Point, e: Point, p: Point) {
    -(e.x - s.x) <= 2 * Off(s, e, p) <= e.x - s.x
  }

  // One point to a column, from the first column up to but not including the last
  lemma OnePerColumn(s: Point, e: Point, p: Point)
    requires s.x < e.x
    ensures p in Shallow(s, e) <==> InRange(s, e, p) && p == ShallowAt(s, e, p.x - s.x)
  {
    if p in Shallow(s, e) {
      var k :| 0 <= k < |Shallow(s, e)| && Shallow(s, e)[k] == p;
    } else if InRange(s, e, p) {
      assert Shallow(s, e)[p.x - s.x] == ShallowAt(s, e, p.x - s.x);
    }
  }

  // The rounded value is the one that is off by at most half a pixel, and the higher one if there are two.
  lemma RoundedIs(k: nat, rise: nat, run: nat, y: nat)
    requires 0 < run
    ensures y == Rounded(k, rise, run) <==> 0 - run <= 2 * (k * rise - y * run) < run
  {
    var total := run / 2 + k * rise;
    var q := total / run;
    Quotient(total, run);
    if y < q {
      Products(y + 1, q, run);
    } else if q < y {
      Products(q + 1, y, run);
    }
  }

  // p is on the line from s in the direction of x, as wide as run and as high as rise.
  predicate OnShallow(s: Point, run: nat, rise: nat, p: Point) {
    && s.x <= p.x < s.x + run && s.y <= p.y
    && 0 - run <= 2 * ((p.x - s.x) * rise - (p.y - s.y) * run) < run
  }

  lemma ShallowIs(s: Point, e: Point, p: Point)
    requires s.x < e.x
    ensures p in Shallow(s, e) <==> OnShallow(s, e.x - s.x, if s.y < e.y then e.y - s.y else s.y - e.y, p)
  {
    hide Rounded, Shallow;
    OnePerColumn(s, e, p);
    if InRange(s, e, p) && s.y <= p.y {
      RoundedIs(p.x - s.x, Dist(s.y, e.y), e.x - s.x, p.y - s.y);
    }
  }

  // Which points are drawn, in numbers: from the lower end in the direction of the larger extent, ties in that of x, as
  // close to the line as may be, whichever way it goes, and without the other end.
  lemma DrawnIs(a: Point, b: Point, p: Point)
    ensures var dx := if a.x < b.x then b.x - a.x else a.x - b.x;
            var dy := if a.y < b.y then b.y - a.y else a.y - b.y;
            p in Drawn(a, b) <==>
            if dx >= dy then OnShallow(if a.x <= b.x then a else b, dx, dy, p)
            else OnShallow(Flip(if a.y <= b.y then a else b), dy, dx, Flip(p))
  {
    hide Shallow;
    if IsShallow(a, b) {
      if a.x == b.x {
        NothingDrawn(a, b);
      } else if a.x < b.x {
        ShallowIs(a, b, p);
      } else {
        ShallowIs(b, a, p);
      }
    } else {
      var s, e := Flip(if a.y < b.y then a else b), Flip(if a.y < b.y then b else a);
      ShallowIs(s, e, Flip(p));
      FlippedHas(Shallow(s, e));
      assert Flip(Flip(p)) == p;
    }
  }

  // A line that rises with x follows the true one to within half a pixel, and so does one of a single column;
  // any other line that falls is drawn rising, and does not.
  lemma {:induction false} FollowsTheLine(s: Point, e: Point)
    requires s.x < e.x && Dist(s.y, e.y) <= e.x - s.x
    ensures (forall p | p in Shallow(s, e) :: Close(s, e, p)) <==> s.y <= e.y || e.x == s.x + 1
  {
    hide Rounded, Close;
    var run := e.x - s.x;
    if s.y <= e.y || run == 1 {
      forall p | p in Shallow(s, e)
        ensures Close(s, e, p)
      {
        OnePerColumn(s, e, p);
        RisesClose(s, e, p.x - s.x);
      }
    } else {
      OnePerColumn(s, e, ShallowAt(s, e, run - 1));
      FallsAway(s, e);
    }
  }

  lemma RisesClose(s: Point, e: Point, k: nat)
    requires s.x < e.x && k < e.x - s.x && (s.y <= e.y || e.x == s.x + 1)
    ensures Close(s, e, ShallowAt(s, e, k))
  {
    hide Rounded;
    var run, rise := e.x - s.x, Dist(s.y, e.y);
    if run == 1 {
      AtFirst(rise, run);
    } else {
      Nearest(k, rise, run);
    }
  }

  lemma HalfUp(rise: nat)
    requires rise >= 1
    ensures Rounded(1, rise, 2) >= 1
  {
    Quotient(1 + 1 * rise, 2);
  }

  // The last point of a line that falls
  lemma FallsAway(s: Point, e: Point)
    requires s.x + 2 <= e.x && e.y < s.y && s.y - e.y <= e.x - s.x
    ensures !Close(s, e, ShallowAt(s, e, e.x - s.x - 1))
  {
    hide Rounded;
    var run, rise := e.x - s.x, s.y - e.y;
    var up := Rounded(run - 1, rise, run);
    if run == 2 {
      HalfUp(rise);
    }
    FarOff(run, rise, up);
  }

  lemma FarOff(run: nat, rise: nat, up: nat)
    requires 2 <= run && 1 <= rise && (run == 2 ==> 1 <= up)
    ensures 2 * ((run - 1) * (0 - rise) - up * run) < 0 - run
  {
    Products(1, rise, run - 1);
    assert (run - 1) * (0 - rise) == -((run - 1) * rise);
    if run == 2 {
      Products(1, up, run);
    }
  }

  // p is within half a pixel of the line between a and b, measured across the direction it advances in.
  predicate WithinHalf(a: Point, b: Point, p: Point) {
    var run := if IsShallow(a, b) then Dist(a.x, b.x) else Dist(a.y, b.y);
    -run <= 2 * Off(a, b, p) <= run
  }

  lemma OffSwaps(a: Point, b: Point, p: Point)
    ensures Off(b, a, p) == -Off(a, b, p) && Off(Flip(a), Flip(b), Flip(p)) == -Off(a, b, p)
  {
    var dx, dy := b.x - a.x, b.y - a.y;
    assert (p.x - b.x) * (a.y - b.y) == dx * dy - (p.x - a.x) * dy;
    assert (p.y - b.y) * (a.x - b.x) == dx * dy - (p.y - a.y) * dx;
  }

  // Neither coordinate falls while the other one rises.
  predicate SameWay(a: Point, b: Point) {
    (a.x <= b.x && a.y <= b.y) || (b.x <= a.x && b.y <= a.y)
  }

  // Exactly which lines are drawn true
  lemma {:induction false} DrawnTrue(a: Point, b: Point)
    ensures (forall p | p in Drawn(a, b) :: WithinHalf(a, b, p)) <==>
            SameWay(a, b) || (Dist(a.x, b.x) == 1 && Dist(a.y, b.y) == 1)
  {
    hide Off, Shallow;
    if IsShallow(a, b) {
      if a.x == b.x {
        NothingDrawn(a, b);
      } else {
        var s, e := if a.x < b.x then a else b, if a.x < b.x then b else a;
        FollowsTheLine(s, e);
        forall p
          ensures WithinHalf(a, b, p) == Close(s, e, p)
        {
          OffSwaps(a, b, p);
        }
      }
    } else {
      var s, e := Flip(if a.y < b.y then a else b), Flip(if a.y < b.y then b else a);
      FollowsTheLine(s, e);
      forall p
        ensures WithinHalf(a, b, Flip(p)) == Close(s, e, p)
      {
        OffSwaps(a, b, Flip(p));
        OffSwaps(b, a, Flip(p));
      }
      FlippedHas(Shallow(s, e));
    }
  }

  lemma NothingDrawn(a: Point, b: Point)
    requires a == b
    ensures Drawn(a, b) == []
  {
  }

  lemma FlippedHas(ps: seq<Point>)
    ensures forall p :: p in ps <==> Flip(p) in Flipped(ps)
    ensures forall p :: p in Flipped(ps) ==> Flip(p) in ps
  {
    forall p | p in ps
      ensures Flip(p) in Flipped(ps)
    {
      var k :| 0 <= k < |ps| && ps[k] == p;
      assert Flipped(ps)[k] == Flip(p);
    }
    forall p | p in Flipped(ps)
      ensures Flip(p) in ps
    {
      var k :| 0 <= k < |ps| && Flipped(ps)[k] == p;
      assert Flip(p) == ps[k];
    }
    forall p | Flip(p) in Flipped(ps)
      ensures p in ps
    {
      assert Flip(Flip(p)) == p;
    }
  }

  // A rising line between two points of the canvas stays on it.
  lemma StaysInside(s: Point, e: Point, size: nat, width: nat, p: Point)
    requires s.x < e.x && s.y <= e.y && e.y - s.y <= e.x - s.x && p in Shallow(s, e)
    requires e.x < width && width * (e.y / 8 + 1) <= size
    ensures Fits(size, width, p) && s.y <= p.y <= e.y
  {
    hide Rounded;
    OnePerColumn(s, e, p);
    NotTooFar(p.x - s.x, e.y - s.y, e.x - s.x);
    RowFits(p.y / 8, e.y / 8, width, p.x, size);
  }

  lemma RowFits(row: nat, last: nat, width: nat, x: nat, size: nat)
    requires row <= last && x < width && width * (last + 1) <= size
    ensures width * row + x < size
  {
    Products(row + 1, last + 1, width);
  }
}
