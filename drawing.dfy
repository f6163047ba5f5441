/** Rows of the display: a `Stripe` is a framed row with text at fixed
    insets that moves down one row each time it is drawn; a DRO is a
    stripe in the monospaced font whose number is drawn digit by digit
    from the right; an LED is a circle that moves down after drawing. */
module Drawing {
  import opened CArith
  import opened Text
  import Areas

  /** How a text is anchored at its point. */
  datatype Anchor = MiddleLeft | MiddleRight | MiddleCenter

  /** What a draw puts on the display. `lit` says a highlighted colour is
      used; the colours themselves are not modelled. */
  datatype Mark =
    | Label(text: string, x: int, y: int, font: Areas.FontNum, anchor: Anchor, lit: bool)
    | Frame(x: int, y: int, w: int, h: int, lit: bool)
    | Circle(x: int, y: int, r: int, lit: bool)

  /** The width of one digit cell of a DRO. */
  const CharWidth := 20

  /** The text inset of a stripe from its left and right edges. */
  const TextInset := 5

  function Pow10(k: nat): (p: nat)
    ensures p >= 1
  {
    if k == 0 then 1 else 10 * Pow10(k - 1)
  }

  /** `k` digits dropped from the right of `v`, the last one dropped
      rounding half up, as the E4 loop of `fancyNumber` does. */
  function DropDigits(v: nat, k: nat): nat
  {
    if k == 0 then v else if k == 1 then (v + 5) / 10 else DropDigits(v / 10, k - 1)
  }

  /** Dropping `k >= 1` digits is adding half of the last unit dropped and
      dividing by the unit: `(v + 5·10^(k−1)) / 10^k`. */
  lemma {:induction false} DropDigitsRounds(v: nat, k: nat)
    requires k >= 1
    ensures DropDigits(v, k) == (v + 5 * Pow10(k - 1)) / Pow10(k)
  {
    if k > 1 {
      DropDigitsRounds(v / 10, k - 1);
      var q, r := v / 10, v % 10;
      var a, b := q + 5 * Pow10(k - 2), Pow10(k - 1);
      assert v + 5 * Pow10(k - 1) == 10 * a + r;
      DivTenTimes(a, r, b);
    }
  }

  lemma DivTenTimes(a: nat, r: nat, b: nat)
    requires r < 10 && b >= 1
    ensures (10 * a + r) / (10 * b) == a / b
  {
    var s, t := a / b, a % b;
    assert a == b * s + t;
    assert 10 * a + r == s * (10 * b) + (10 * t + r);
    ModUnique(10 * a + r, s, 10 * t + r, 10 * b);
  }

  /** How many digits the E4 loop drops for `nd` decimals. */
  function DroppedFor(nd: nat): nat
  {
    if nd < 4 then 4 - nd else 0
  }

  /** What a run of `putDigit` calls produces: the marks, what is left of
      the number, and where the next cell is. */
  datatype Emitted = Emitted(marks: seq<Mark>, rest: nat, x: int)

  /** The digit cell `putDigit` draws for the lowest digit of `v`. */
  function DigitMark(v: nat, x: int, y: int, lit: bool): Mark
  {
    Label([DigitChar(v % 10)], x, y, Areas.MEDIUM, MiddleRight, lit)
  }

  /** The fraction loop: `k` cells from the right, digit `i` on. */
  function FractionDigits(v: nat, k: nat, i: int, hl: int, x: int, y: int): (e: Emitted)
    ensures |e.marks| == k && e.x == x - CharWidth * k
    decreases k
  {
    if k == 0 then Emitted([], v, x)
    else
      var rest := FractionDigits(v / 10, k - 1, i + 1, hl, x - CharWidth, y);
      Emitted([DigitMark(v, x, y, i == hl)] + rest.marks, rest.rest, rest.x)
  }

  /** The integer do-while loop: at least one cell, then more while digits
      remain or the highlighted position is not yet reached. */
  function IntegerDigits(v: nat, i: int, hl: int, x: int, y: int): (e: Emitted)
    ensures |e.marks| >= 1 && e.x == x - CharWidth * |e.marks|
    ensures e.rest == 0
    decreases v + (if hl - i > 0 then hl - i else 0)
  {
    var first := DigitMark(v, x, y, i == hl);
    if v / 10 != 0 || i + 1 <= hl then
      var rest := IntegerDigits(v / 10, i + 1, hl, x - CharWidth, y);
      Emitted([first] + rest.marks, rest.rest, rest.x)
    else Emitted([first], 0, x - CharWidth)
  }

  /** The x of the cell `c` places left of `x`. */
  function CellX(x: int, c: int): int
  {
    x - CharWidth * c
  }

  lemma CellXAdd(x: int, a: int, b: int)
    ensures CellX(CellX(x, a), b) == CellX(x, a + b)
  {
  }

  /** `v` with its `c` lowest digits taken off. */
  function Shifted(v: nat, c: nat): nat
  {
    var p := Pow10(c);
    EuclidNat(v, p);
    v / p
  }

  /** Taking digits off in two goes is taking them off at once. */
  lemma DivDiv(v: nat, a: nat, b: nat)
    requires a >= 1 && b >= 1
    ensures v / a / b == v / (a * b)
  {
    var q, r := v / a, v % a;
    var q2, r2 := q / b, q % b;
    EuclidNat(v, a);
    EuclidNat(q, b);
    MulLeR(r2, b - 1, a);
    assert v == q2 * (a * b) + (r2 * a + r);
    ModUnique(v, q2, r2 * a + r, a * b);
  }

  lemma {:induction false} Pow10Add(a: nat, b: nat)
    ensures Pow10(a + b) == Pow10(a) * Pow10(b)
    decreases a
  {
    if a > 0 {
      Pow10Add(a - 1, b);
    }
  }

  /** The fraction loop leaves the number with its `k` lowest digits taken
      off. */
  lemma {:induction false} FractionRest(v: nat, k: nat, i: int, hl: int, x: int, y: int)
    ensures FractionDigits(v, k, i, hl, x, y).rest == v / Pow10(k)
    decreases k
  {
    if k > 0 {
      FractionRest(v / 10, k - 1, i + 1, hl, x - CharWidth, y);
      DivDiv(v, 10, Pow10(k - 1));
    }
  }

  /** Cell `j` of the fraction loop shows digit `j` of `v`, counted from
      the lowest, at its place, highlighted exactly when it is the digit
      `hl`. */
  lemma {:induction false} FractionCells(v: nat, k: nat, i: int, hl: int, x: int, y: int, j: int)
    requires 0 <= j < k
    ensures FractionDigits(v, k, i, hl, x, y).marks[j]
            == DigitMark(Shifted(v, j), CellX(x, j), y, i + j == hl)
    decreases k
  {
    if j > 0 {
      FractionCells(v / 10, k - 1, i + 1, hl, x - CharWidth, y, j - 1);
      DivDiv(v, 10, Pow10(j - 1));
    }
  }

  /** Cell `j` of the integer loop shows digit `j` of `v`, counted from
      the lowest, at its place, highlighted exactly when it is the digit
      `hl`. */
  lemma {:induction false} IntegerCells(v: nat, i: int, hl: int, x: int, y: int, j: int)
    requires 0 <= j < |IntegerDigits(v, i, hl, x, y).marks|
    ensures IntegerDigits(v, i, hl, x, y).marks[j]
            == DigitMark(Shifted(v, j), CellX(x, j), y, i + j == hl)
    decreases v + (if hl - i > 0 then hl - i else 0)
  {
    if j > 0 {
      IntegerCells(v / 10, i + 1, hl, x - CharWidth, y, j - 1);
      DivDiv(v, 10, Pow10(j - 1));
    }
  }

  /** The integer loop draws cells up to the first count that has used up
      every digit of `v` and gone past the highlighted position. */
  lemma {:induction false} IntegerCount(v: nat, i: int, hl: int, x: int, y: int)
    ensures var c := |IntegerDigits(v, i, hl, x, y).marks|;
            v / Pow10(c) == 0 && i + c > hl
            && forall c' :: 1 <= c' < c ==> v / Pow10(c') != 0 || i + c' <= hl
    decreases v + (if hl - i > 0 then hl - i else 0)
  {
    var c := |IntegerDigits(v, i, hl, x, y).marks|;
    if v / 10 != 0 || i + 1 <= hl {
      IntegerCount(v / 10, i + 1, hl, x - CharWidth, y);
      DivDiv(v, 10, Pow10(c - 1));
      forall c' | 1 < c' < c
        ensures v / Pow10(c') != 0 || i + c' <= hl
      {
        DivDiv(v, 10, Pow10(c' - 1));
      }
    }
  }

  /** The marks `fancyNumber` draws for `n` with `nd` decimals and digit
      `hl` highlighted (E4 numbers, four decimals stored), right-aligned
      at `x`. */
  function FancyNumber(n: int, nd: nat, hl: int, x: int, y: int): seq<Mark>
  {
    var v := DropDigits(Abs(n), DroppedFor(nd));
    var frac := FractionDigits(v, nd, 0, hl, x, y);
    var dot := if nd != 0 then [Label(".", frac.x - 10, y, Areas.MEDIUM, MiddleCenter, false)] else [];
    var x1 := if nd != 0 then frac.x - CharWidth else frac.x;
    var whole := IntegerDigits(frac.rest, nd, hl, x1, y);
    var minus := if n < 0 then [Label("-", whole.x, y, Areas.MEDIUM, MiddleRight, false)] else [];
    frac.marks + dot + whole.marks + minus
  }

  /** The four parts of a drawn number, put together. */
  lemma FancyNumberParts(n: int, nd: nat, hl: int, x: int, y: int,
                         m0: seq<Mark>, m1: seq<Mark>, m2: seq<Mark>, m3: seq<Mark>, m4: seq<Mark>)
    requires var v := DropDigits(Abs(n), DroppedFor(nd));
             var frac := FractionDigits(v, nd, 0, hl, x, y);
             var x1 := if nd != 0 then frac.x - CharWidth else frac.x;
             var whole := IntegerDigits(frac.rest, nd, hl, x1, y);
             m1 == m0 + frac.marks
             && m2 == m1 + (if nd != 0 then [Label(".", frac.x - 10, y, Areas.MEDIUM, MiddleCenter, false)] else [])
             && m3 == m2 + whole.marks
             && m4 == m3 + (if n < 0 then [Label("-", whole.x, y, Areas.MEDIUM, MiddleRight, false)] else [])
    ensures m4 == m0 + FancyNumber(n, nd, hl, x, y)
  {
  }

  predicate TextIs(m: Mark, s: string)
  {
    m.Label? && m.text == s
  }

  /** The shape of a drawn number: `nd` fraction cells, a point exactly
      when there are decimals, at least one integer cell, and a minus sign
      last exactly when the number is negative, even one that rounds to
      zero. */
  lemma FancyNumberShape(n: int, nd: nat, hl: int, x: int, y: int)
    ensures var ms := FancyNumber(n, nd, hl, x, y);
            var v := DropDigits(Abs(n), DroppedFor(nd));
            var frac := FractionDigits(v, nd, 0, hl, x, y);
            var x1 := if nd != 0 then frac.x - CharWidth else frac.x;
            var whole := IntegerDigits(frac.rest, nd, hl, x1, y);
            var d := if nd != 0 then 1 else 0;
            |ms| == nd + d + |whole.marks| + (if n < 0 then 1 else 0)
            && |whole.marks| >= 1
            && (nd != 0 <==> TextIs(ms[nd], "."))
            && (TextIs(ms[|ms| - 1], "-") <==> n < 0)
  {
    var v := DropDigits(Abs(n), DroppedFor(nd));
    var frac := FractionDigits(v, nd, 0, hl, x, y);
    var x1 := if nd != 0 then frac.x - CharWidth else frac.x;
    var whole := IntegerDigits(frac.rest, nd, hl, x1, y);
    var ms := FancyNumber(n, nd, hl, x, y);
    var d := if nd != 0 then 1 else 0;
    if nd == 0 {
      IntegerCells(frac.rest, nd, hl, x1, y, 0);
      assert ms[nd] == whole.marks[0];
    }
    if n >= 0 {
      var j := |whole.marks| - 1;
      IntegerCells(frac.rest, nd, hl, x1, y, j);
      assert ms[|ms| - 1] == whole.marks[j];
    }
  }

  /** The digit cells of a drawn number spell the rounded magnitude `v`
      least significant digit first. Counting digit positions `c` from the
      right (the fraction digits, then the integer ones), the cell of
      position `c` shows digit `c` of `v`, sits `c` cells left of `x` (one
      more past the point) and is highlighted exactly when `c` is `hl`.
      The integer cells stop at the first position that has used up every
      digit of `v` and gone past `hl`. */
  lemma FancyNumberDigits(n: int, nd: nat, hl: int, x: int, y: int)
    ensures var ms := FancyNumber(n, nd, hl, x, y);
            var v := DropDigits(Abs(n), DroppedFor(nd));
            var d := if nd != 0 then 1 else 0;
            var w := |ms| - nd - d - (if n < 0 then 1 else 0);
            w >= 1 && DigitsSpell(ms, v, nd, d, w, hl, x, y)
  {
    var ms := FancyNumber(n, nd, hl, x, y);
    var v := DropDigits(Abs(n), DroppedFor(nd));
    var d := if nd != 0 then 1 else 0;
    var frac, x1, whole := FancyNumberLayout(n, nd, hl, x, y, ms, v, d);
    CellsSpell(v, nd, hl, x, y, frac, x1, whole, ms, d);
  }

  /** The parts of a drawn number and where they sit in it. */
  lemma FancyNumberLayout(n: int, nd: nat, hl: int, x: int, y: int, ms: seq<Mark>, v: nat, d: nat)
    returns (frac: Emitted, x1: int, whole: Emitted)
    requires ms == FancyNumber(n, nd, hl, x, y) && v == DropDigits(Abs(n), DroppedFor(nd))
    requires d == if nd != 0 then 1 else 0
    ensures frac == FractionDigits(v, nd, 0, hl, x, y)
    ensures x1 == CellX(x, nd + d) && whole == IntegerDigits(frac.rest, nd, hl, x1, y)
    ensures |ms| == nd + d + |whole.marks| + (if n < 0 then 1 else 0)
    ensures ms[..nd] == frac.marks && ms[nd + d..nd + d + |whole.marks|] == whole.marks
  {
    frac := FractionDigits(v, nd, 0, hl, x, y);
    x1 := if nd != 0 then frac.x - CharWidth else frac.x;
    whole := IntegerDigits(frac.rest, nd, hl, x1, y);
    var dot := if nd != 0 then [Label(".", frac.x - 10, y, Areas.MEDIUM, MiddleCenter, false)] else [];
    var minus := if n < 0 then [Label("-", whole.x, y, Areas.MEDIUM, MiddleRight, false)] else [];
    assert ms == frac.marks + dot + whole.marks + minus;
    SliceParts(frac.marks, dot, whole.marks, minus);
    assert frac.x == CellX(x, nd) && x1 == CellX(frac.x, d);
    CellXAdd(x, nd, d);
  }

  lemma SliceParts<T>(a: seq<T>, b: seq<T>, c: seq<T>, e: seq<T>)
    ensures (a + b + c + e)[..|a|] == a
    ensures (a + b + c + e)[|a| + |b|..|a| + |b| + |c|] == c
  {
    assert (a + b + c + e)[..|a|] == a;
    assert (a + b + c + e)[|a| + |b|..|a| + |b| + |c|] == c;
  }

  /** The cells of positions `0 .. nd + w` show the digits of `v` as the
      drawn number does, and the count `w` of integer cells is where the
      integer loop stops. */
  ghost predicate DigitsSpell(ms: seq<Mark>, v: nat, nd: nat, d: nat, w: nat, hl: int, x: int, y: int)
  {
    |ms| >= nd + d + w
    && (forall c :: 0 <= c < nd ==> ms[c] == DigitMark(Shifted(v, c), CellX(x, c), y, c == hl))
    && (forall c :: nd <= c < nd + w ==>
          ms[c + d] == DigitMark(Shifted(v, c), CellX(x, c + d), y, c == hl))
    && Shifted(v, nd + w) == 0 && nd + w > hl
    && (forall c :: nd < c < nd + w ==> Shifted(v, c) != 0 || c <= hl)
  }

  lemma CellsSpell(v: nat, nd: nat, hl: int, x: int, y: int, frac: Emitted, x1: int, whole: Emitted, ms: seq<Mark>, d: nat)
    requires frac == FractionDigits(v, nd, 0, hl, x, y)
    requires x1 == CellX(x, nd + d) && whole == IntegerDigits(frac.rest, nd, hl, x1, y)
    requires |ms| >= nd + d + |whole.marks|
    requires ms[..nd] == frac.marks && ms[nd + d..nd + d + |whole.marks|] == whole.marks
    ensures DigitsSpell(ms, v, nd, d, |whole.marks|, hl, x, y)
  {
    var w := |whole.marks|;
    forall c | 0 <= c < nd
      ensures ms[c] == DigitMark(Shifted(v, c), CellX(x, c), y, c == hl)
    {
      FractionCells(v, nd, 0, hl, x, y, c);
      assert ms[c] == ms[..nd][c];
    }
    forall c | nd <= c < nd + w
      ensures ms[c + d] == DigitMark(Shifted(v, c), CellX(x, c + d), y, c == hl)
    {
      IntegerCellSpells(v, nd, hl, x, y, frac, x1, whole, d, c);
      assert ms[c + d] == ms[nd + d..nd + d + w][c - nd];
    }
    FractionRest(v, nd, 0, hl, x, y);
    IntegerCountSpells(v, nd, hl, x1, y, frac.rest, w);
  }

  lemma IntegerCellSpells(v: nat, nd: nat, hl: int, x: int, y: int, frac: Emitted, x1: int, whole: Emitted, d: nat, c: int)
    requires frac == FractionDigits(v, nd, 0, hl, x, y)
    requires x1 == CellX(x, nd + d) && whole == IntegerDigits(frac.rest, nd, hl, x1, y)
    requires nd <= c < nd + |whole.marks|
    ensures whole.marks[c - nd] == DigitMark(Shifted(v, c), CellX(x, c + d), y, c == hl)
  {
    FractionRest(v, nd, 0, hl, x, y);
    IntegerCells(frac.rest, nd, hl, x1, y, c - nd);
    DivDiv(v, Pow10(nd), Pow10(c - nd));
    Pow10Add(nd, c - nd);
    CellXAdd(x, nd + d, c - nd);
  }

  lemma IntegerCountSpells(v: nat, nd: nat, hl: int, x1: int, y: int, rest: nat, w: nat)
    requires rest == v / Pow10(nd) && w == |IntegerDigits(rest, nd, hl, x1, y).marks|
    ensures Shifted(v, nd + w) == 0 && nd + w > hl
    ensures forall c :: nd < c < nd + w ==> Shifted(v, c) != 0 || c <= hl
  {
    IntegerCount(rest, nd, hl, x1, y);
    DivDiv(v, Pow10(nd), Pow10(w));
    Pow10Add(nd, w);
    forall c | nd < c < nd + w
      ensures Shifted(v, c) != 0 || c <= hl
    {
      DivDiv(v, Pow10(nd), Pow10(c - nd));
      Pow10Add(nd, c - nd);
    }
  }

  /** The E4 loop rounds half up: 1.2346 shown with three decimals is
      1.235, 1.2345 with two is 1.23 and 1.2350 with two is 1.24. */
  lemma RoundingExamples()
    ensures DropDigits(12346, DroppedFor(3)) == 1235
    ensures DropDigits(12345, DroppedFor(2)) == 123
    ensures DropDigits(12350, DroppedFor(2)) == 124
  {
  }

  /** `Stripe`: a row of the display with its position and size, the font
      of its text, and the marks its draws put on the display. */
  class Stripe {
    const x: int
    const width: int
    const height: int
    const font: Areas.FontNum
    var y: int
    var marks: seq<Mark>

    constructor (x: int, y: int, width: int, height: int, font: Areas.FontNum)
      ensures this.x == x && this.y == y && this.width == width && this.height == height
      ensures this.font == font && marks == []
    {
      this.x, this.y, this.width, this.height, this.font := x, y, width, height, font;
      marks := [];
    }

    /** A DRO is a stripe whose text is in the monospaced medium font. */
    constructor Dro(x: int, y: int, width: int, height: int)
      ensures this.x == x && this.y == y && this.width == width && this.height == height
      ensures font == Areas.MEDIUM_MONO && marks == []
    {
      this.x, this.y, this.width, this.height, font := x, y, width, height, Areas.MEDIUM_MONO;
      marks := [];
    }

    function TextLeftX(): (r: int)
      reads this
      ensures r - x == TextInset
    {
      x + TextInset
    }

    function TextCenterX(): (r: int)
      reads this
      ensures width >= 0 ==> x <= r <= x + width
    {
      x + TDiv(width, 2)
    }

    function TextRightX(): (r: int)
      reads this
      ensures x + width - r == TextInset
    {
      x + width - TextInset
    }

    function TextMiddleY(): (r: int)
      reads this
      ensures height >= 0 ==> y + 2 <= r <= y + height + 2
    {
      y + TDiv(height, 2) + 2
    }

    /** The distance from one row to the next: the height and a one pixel
      gap. */
    function Gap(): (g: int)
      reads this
      ensures g > height
    {
      height + 1
    }

    method Advance()
      modifies this`y
      ensures y == old(y) + Gap()
    {
      y := y + Gap();
    }

    /** `draw(left, right, highlighted)`: a frame, the left text at the
      left inset and the right text at the right inset where they are not
      empty, then the stripe moves down a row. */
    method DrawLeftRight(left: string, right: string, highlighted: bool)
      modifies this`y, this`marks
      ensures y == old(y) + Gap()
      ensures marks == old(marks) + [Frame(x, old(y), width, height, highlighted)]
                       + (if left != "" then [Label(left, x + TextInset, old(TextMiddleY()), font, MiddleLeft, false)] else [])
                       + (if right != "" then [Label(right, x + width - TextInset, old(TextMiddleY()), font, MiddleRight, false)] else [])
    {
      marks := marks + [Frame(x, y, width, height, highlighted)];
      if left != "" {
        marks := marks + [Label(left, TextLeftX(), TextMiddleY(), font, MiddleLeft, false)];
      }
      if right != "" {
        marks := marks + [Label(right, TextRightX(), TextMiddleY(), font, MiddleRight, false)];
      }
      Advance();
    }

    /** `draw(char left, right, highlighted)`: the one-character string
      version; a NUL character is an empty left text. */
    method DrawCharRight(left: char, right: string, highlighted: bool)
      modifies this`y, this`marks
      ensures y == old(y) + Gap()
      ensures marks == old(marks) + [Frame(x, old(y), width, height, highlighted)]
                       + (if left != '\0' then [Label([left], x + TextInset, old(TextMiddleY()), font, MiddleLeft, false)] else [])
                       + (if right != "" then [Label(right, x + width - TextInset, old(TextMiddleY()), font, MiddleRight, false)] else [])
    {
      DrawLeftRight(if left == '\0' then "" else [left], right, highlighted);
    }

    /** `draw(center, highlighted)`: a frame and the text centred. */
    method DrawCentered(center: string, highlighted: bool)
      modifies this`y, this`marks
      ensures y == old(y) + Gap()
      ensures marks == old(marks) + [Frame(x, old(y), width, height, highlighted),
                                     Label(center, old(TextCenterX()), old(TextMiddleY()), font, MiddleCenter, false)]
    {
      marks := marks + [Frame(x, y, width, height, highlighted)];
      marks := marks + [Label(center, TextCenterX(), TextMiddleY(), font, MiddleCenter, false)];
      Advance();
    }

    /** `putDigit`: the lowest digit of `n` in a cell at `x`, and `n` with
      that digit removed. */
    method PutDigit(n: nat, x: int, y: int, lit: bool) returns (rest: nat)
      modifies this`marks
      ensures marks == old(marks) + [DigitMark(n, x, y, lit)]
      ensures rest == n / 10
    {
      marks := marks + [Label([DigitChar(n % 10)], x, y, Areas.MEDIUM, MiddleRight, lit)];
      rest := n / 10;
    }

    /** The E4 loop of `fancyNumber`: from four stored decimals down to
      `nd`, the last digit dropped rounded half up. */
    static method RoundE4(a: nat, nd: nat) returns (m: nat)
      ensures m == DropDigits(a, DroppedFor(nd))
    {
      m := a;
      var i := 4;
      while i > nd
        invariant if nd < 4 then nd <= i <= 4 else i == 4
        invariant DropDigits(m, if i > nd then i - nd else 0) == DropDigits(a, DroppedFor(nd))
      {
        if i == nd + 1 {
          m := m + 5;
        }
        m := m / 10;
        i := i - 1;
      }
    }

    /** The fraction loop of `fancyNumber`. */
    method DrawFraction(v: nat, nd: nat, hl: int, x0: int, y: int) returns (ni: nat, x: int)
      modifies this`marks
      ensures var e := FractionDigits(v, nd, 0, hl, x0, y);
              marks == old(marks) + e.marks && ni == e.rest && x == e.x
    {
      ghost var frac := FractionDigits(v, nd, 0, hl, x0, y);
      ni, x := v, x0;
      var i := 0;
      while i < nd
        invariant 0 <= i <= nd
        invariant var e := FractionDigits(ni, nd - i, i, hl, x, y);
                  marks + e.marks == old(marks) + frac.marks && e.rest == frac.rest && e.x == frac.x
      {
        ni := PutDigit(ni, x, y, i == hl);
        x := x - CharWidth;
        i := i + 1;
      }
    }

    /** The integer do-while loop of `fancyNumber`, from digit position
      `i0`. */
    method DrawInteger(v: nat, i0: int, hl: int, x0: int, y: int) returns (x: int)
      modifies this`marks
      ensures var e := IntegerDigits(v, i0, hl, x0, y);
              marks == old(marks) + e.marks && x == e.x
    {
      ghost var whole := IntegerDigits(v, i0, hl, x0, y);
      var ni: nat := v;
      var i := i0;
      x := x0;
      while true
        invariant var e := IntegerDigits(ni, i, hl, x, y);
                  marks + e.marks == old(marks) + whole.marks && e.x == whole.x
        decreases ni + (if hl - i > 0 then hl - i else 0)
      {
        ghost var m0, e0 := marks, IntegerDigits(ni, i, hl, x, y);
        ghost var first := DigitMark(ni, x, y, i == hl);
        var lit := i == hl;
        ni := PutDigit(ni, x, y, lit);
        i := i + 1;
        x := x - CharWidth;
        if !(ni != 0 || i <= hl) {
          assert e0.marks == [first] && e0.x == x;
          break;
        }
        ghost var e1 := IntegerDigits(ni, i, hl, x, y);
        assert e0.marks == [first] + e1.marks && e0.x == e1.x;
        assert marks + e1.marks == m0 + e0.marks;
      }
    }

    /** `fancyNumber`, E4 numbers: the dropped digits rounded away, the
      fraction cells from the right, the point, the integer cells, and the
      sign. */
    method DrawFancyNumber(n: int, nd: nat, hl: int, x0: int, y: int)
      modifies this`marks
      ensures marks == old(marks) + FancyNumber(n, nd, hl, x0, y)
    {
      var isneg := n < 0;
      var m: nat := if isneg then -n else n;
      assert m == Abs(n);
      m := RoundE4(m, nd);
      ghost var m0 := marks;
      var ni, x := DrawFraction(m, nd, hl, x0, y);
      ghost var m1 := marks;
      if nd != 0 {
        marks := marks + [Label(".", x - 10, y, Areas.MEDIUM, MiddleCenter, false)];
        x := x - CharWidth;
      }
      ghost var m2 := marks;
      x := DrawInteger(ni, nd, hl, x, y);
      ghost var m3 := marks;
      if isneg {
        marks := marks + [Label("-", x, y, Areas.MEDIUM, MiddleRight, false)];
      }
      FancyNumberParts(n, nd, hl, x0, y, m0, m1, m2, m3, marks);
    }
  }

  /** Rows drawn one after another: after `k` draws the stripe is `k` rows
      lower. */
  function RowY(y0: int, height: int, k: nat): int
  {
    if k == 0 then y0 else RowY(y0, height, k - 1) + height + 1
  }

  lemma {:induction false} RowYClosed(y0: int, height: int, k: nat)
    ensures RowY(y0, height, k) == y0 + k * (height + 1)
  {
    if k > 0 {
      RowYClosed(y0, height, k - 1);
      MulSucc(k - 1, height + 1);
    }
  }

  /** `LED`: a circle drawn at its place, which then moves down by its
      gap. */
  class Led {
    const x: int
    const radius: int
    const gap: int
    var y: int
    var marks: seq<Mark>

    constructor (x: int, y: int, radius: int, gap: int)
      ensures this.x == x && this.y == y && this.radius == radius && this.gap == gap && marks == []
    {
      this.x, this.y, this.radius, this.gap := x, y, radius, gap;
      marks := [];
    }

    method Draw(highlighted: bool)
      modifies this`y, this`marks
      ensures marks == old(marks) + [Circle(x, old(y), radius, highlighted)]
      ensures y == old(y) + gap
    {
      marks := marks + [Circle(x, y, radius, highlighted)];
      y := y + gap;
    }
  }
}
