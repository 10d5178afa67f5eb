/** The font scaler and the cloud renderer of the tag-cloud generator: each displayed word
    gets a font size between 11 and 48 by linear interpolation of its count between the
    smallest and the largest count, and is written out as one span. */
module Cloud {
  import opened Ranking

  /** What the generator writes to the output file: the header naming the input file and
      the number of words shown, one span per word, and the closing tags. */
  datatype Piece =
    | Header(file: string, top: int)
    | Span(font: int, count: int, key: string)
    | Close

  /** The smallest font size and the spread between the smallest and the largest. */
  const FontMin: int := 11
  const Diff: int := 37

  function Abs(x: int): nat {
    if x < 0 then -x else x
  }

  /** Java's integer division `a / b`, which truncates toward zero: the remainder is
      smaller than the divisor in magnitude and has the sign of the dividend. */
  function JavaDiv(a: int, b: int): (q: int)
    requires b != 0
    ensures Abs(a - q * b) < Abs(b)
    ensures a - q * b == 0 || (a - q * b < 0 <==> a < 0)
  {
    TruncatedRemainder(a, b, Abs(a) / Abs(b));
    var q := Abs(a) / Abs(b);
    if (a < 0) == (b < 0) then q else -q
  }

  /** The quotient of the magnitudes, given the sign of the true quotient, leaves a remainder
      with the magnitude of `Abs(a) % Abs(b)` and the sign of `a`. */
  lemma TruncatedRemainder(a: int, b: int, q: int)
    requires b != 0 && q == Abs(a) / Abs(b)
    ensures var r := a - (if (a < 0) == (b < 0) then q else -q) * b;
            Abs(r) == Abs(a) % Abs(b) && (r == 0 || (r < 0 <==> a < 0))
  {
    var x, y := Abs(a), Abs(b);
    var m := x % y;
    assert x == q * y + m && 0 <= m < y;
    var s := if (a < 0) == (b < 0) then q else -q;
    if b < 0 {
      MulNeg(s, y);
    }
    assert s * b == (if a < 0 then -(q * y) else q * y);
  }

  lemma MulNeg(x: int, y: int)
    ensures x * -y == -(x * y)
    ensures -x * -y == x * y
  {
  }

  /** The font size of a word seen `count` times, when the counts range from `min` to `max`:
      a count between the smallest and the largest gets a size from 11 to 48. */
  function Font(count: int, min: int, max: int): (font: int)
    ensures min <= count <= max ==> FontMin <= font <= FontMin + Diff
  {
    if min != max then
      ScaleInRange(count - min, max - min);
      JavaDiv(Diff * (count - min), max - min) + FontMin
    else FontMin
  }

  lemma {:induction false} MulAtLeast(d: int, k: int)
    requires 0 < d && 1 <= k
    ensures d * k >= d
    decreases k
  {
    if k > 1 {
      MulAtLeast(d, k - 1);
      assert d * k == d * (k - 1) + d;
    }
  }

  lemma DivMonotone(a: int, b: int, d: int)
    requires 0 <= a <= b && 0 < d
    ensures a / d <= b / d
  {
    var qa, ra := a / d, a % d;
    var qb, rb := b / d, b % d;
    assert a == d * qa + ra && 0 <= ra < d;
    assert b == d * qb + rb && 0 <= rb < d;
    if qa > qb {
      MulAtLeast(d, qa - qb);
    }
  }

  lemma DivOfMultiple(x: int, d: int)
    requires 0 < d
    ensures (x * d) / d == x
  {
    var q, r := (x * d) / d, (x * d) % d;
    assert x * d == d * q + r && 0 <= r < d;
    assert d * (x - q) == r;
    if x - q >= 1 {
      MulAtLeast(d, x - q);
    } else if x - q <= -1 {
      MulAtLeast(d, q - x);
    }
  }

  /** Scaling `c` out of `d` to `Diff` stays within `0..Diff`. */
  lemma ScaleInRange(c: int, d: int)
    requires d != 0
    ensures 0 <= c <= d ==> 0 <= (Diff * c) / d <= Diff
  {
    if 0 <= c <= d {
      DivMonotone(Diff * c, Diff * d, d);
      DivOfMultiple(Diff, d);
      assert Diff * d == d * Diff;
    }
  }

  /** The least frequent word gets size 11, the most frequent size 48. */
  lemma FontAtEnds(min: int, max: int)
    requires min < max
    ensures Font(min, min, max) == FontMin
    ensures Font(max, min, max) == FontMin + Diff
  {
    DivOfMultiple(Diff, max - min);
  }

  /** A more frequent word never gets a smaller font. */
  lemma FontMonotone(c1: int, c2: int, min: int, max: int)
    requires min <= c1 <= c2 <= max
    ensures Font(c1, min, max) <= Font(c2, min, max)
  {
    if min != max {
      DivMonotone(Diff * (c1 - min), Diff * (c2 - min), max - min);
    }
  }

  /** Writes the first `n` entries of `list` as spans, in list order, each with its font
      size, count and word, then the closing tags. The font stays 11 when every count is
      the same (`min == max`). */
  method OutputCloud(list: seq<Entry>, n: int, max: int, min: int) returns (out: seq<Piece>)
    requires n <= |list|
    ensures |out| == (if n < 0 then 0 else n) + 1
    ensures forall i :: 0 <= i < n ==>
              out[i] == Span(Font(list[i].count, min, max), list[i].count, list[i].key)
    ensures out[|out| - 1] == Close
    ensures min == max ==> forall i :: 0 <= i < n ==> out[i].font == FontMin
    ensures (forall i :: 0 <= i < n ==> min <= list[i].count <= max) ==>
              forall i :: 0 <= i < n ==> FontMin <= out[i].font <= FontMin + Diff
  {
    out := [];
    var i := 0;
    var font := FontMin;
    while i < n
      invariant 0 <= i <= if n < 0 then 0 else n
      invariant |out| == i
      invariant min == max ==> font == FontMin
      invariant forall k :: 0 <= k < i ==>
                  out[k] == Span(Font(list[k].count, min, max), list[k].count, list[k].key)
    {
      var m := list[i];
      if min != max {
        font := JavaDiv(Diff * (m.count - min), max - min) + FontMin;
      }
      out := out + [Span(font, m.count, m.key)];
      i := i + 1;
    }
    out := out + [Close];
  }
}
