/**
 * The index arithmetic of the infinite project carousel (`setupProjectSlider`
 * in js/main.js). The strip holds the N real cards with three clones on each
 * side; a scroll offset of `cardWidth * p` shows the card at position p.
 * Offsets and widths are integers here.
 */
module CarouselIndex {

  /** `clonesCount`: the cards cloned at each end of the strip. */
  const ClonesCount: int := 3

  /**
   * `Math.round(x / w)` for an integer offset `x` and a positive width `w`:
   * the integer nearest to x / w, halves rounded up.
   */
  function RoundDiv(x: int, w: int): (r: int)
    requires w > 0
    ensures 2 * w * r - w <= 2 * x < 2 * w * r + w
  {
    var r := (2 * x + w) / (2 * w);
    DivBounds(2 * x + w, 2 * w);
    r
  }

  /** Floor division puts `q * d` within `d` of the dividend. */
  lemma DivBounds(a: int, d: int)
    requires d > 0
    ensures d * (a / d) <= a < d * (a / d) + d
  {
  }

  /** Only one integer is that close to x / w. */
  lemma {:induction false} RoundDivUnique(x: int, w: int, r: int)
    requires w > 0
    requires 2 * w * r - w <= 2 * x < 2 * w * r + w
    ensures RoundDiv(x, w) == r
  {
    var q := RoundDiv(x, w);
    // both 2wq and 2wr lie in (2x - w, 2x + w], so they differ by less than 2w
    assert 2 * w * (q - r) < 2 * w && 2 * w * (r - q) < 2 * w;
    MultiplyAtLeast(2 * w, q - r);
    MultiplyAtLeast(2 * w, r - q);
  }

  /** A positive multiple of `d` is at least `d`. */
  lemma MultiplyAtLeast(d: int, k: int)
    requires d > 0
    ensures k >= 1 ==> d * k >= d
  {
  }

  /**
   * JavaScript's `a % n`: the remainder of division truncated toward zero, so
   * it takes the sign of `a`.
   */
  function JsRem(a: int, n: int): (r: int)
    requires n != 0
    ensures a >= 0 ==> 0 <= r < Abs(n)
    ensures a < 0 ==> 0 < r + Abs(n) && r <= 0
    ensures (a - r) % Abs(n) == 0
  {
    var m := Abs(n);
    RemainderIsMultiple(if a >= 0 then a else -a, m);
    if a >= 0 then a % m else -((-a) % m)
  }

  /** `b - b % m` and its negation are multiples of `m`. */
  lemma RemainderIsMultiple(b: int, m: int)
    requires m >= 1
    ensures (b - b % m) % m == 0 && (-(b - b % m)) % m == 0
  {
    var q := b / m;
    ModUnique(b - b % m, m, q, 0);
    NegateProduct(m, q);
    ModUnique(-(b - b % m), m, -q, 0);
  }

  lemma NegateProduct(m: int, q: int)
    ensures m * (-q) == -(m * q)
  {
  }

  function Abs(n: int): (m: nat)
  {
    if n < 0 then -n else n
  }

  /**
   * `(realIndex % N + N) % N` with JavaScript's `%`, for N real cards: the
   * mathematical residue of `realIndex` modulo N, hence a valid dot index.
   */
  function ActiveIndex(realIndex: int, n: int): (i: int)
    requires n >= 1
    ensures 0 <= i < n
    ensures i == realIndex % n
  {
    var r := JsRem(realIndex, n);
    ResidueOfShift(realIndex, r, n);
    JsRem(r + n, n)
  }

  /** Shifting by a multiple of `n` does not change the residue. */
  lemma ResidueOfShift(a: int, r: int, n: int)
    requires n >= 1
    requires -n < r < n && (a - r) % n == 0
    ensures (r + n) % n == a % n
  {
    var k := (a - r) / n;
    ModUnique(a - r, n, k, 0);
    assert a == r + n * k;
    ModShift(r + n, k - 1, n);
    assert r + n + n * (k - 1) == a;
  }

  /** The quotient and remainder of division by `n` are the only ones. */
  lemma ModUnique(a: int, n: int, q: int, r: int)
    requires n >= 1 && 0 <= r < n && a == n * q + r
    ensures a / n == q && a % n == r
  {
    var q', r' := a / n, a % n;
    assert n * (q - q') == r' - r;
    MultiplyAtLeast(n, q - q');
    MultiplyAtLeast(n, q' - q);
  }

  /** Adding `n * k` does not change a residue modulo `n`. */
  lemma ModShift(a: int, k: int, n: int)
    requires n >= 1
    ensures (a + n * k) % n == a % n
  {
    var q, r := a / n, a % n;
    assert a + n * k == n * (q + k) + r;
    ModUnique(a + n * k, n, q + k, r);
  }

  /**
   * The dot that the scroll handler marks active at scroll offset `x`:
   * `Math.round(x / cardWidth - clonesCount)` normalised into `[0, N)`.
   */
  function ActiveIndexAt(x: int, cardWidth: int, n: int): (i: int)
    requires cardWidth > 0 && n >= 1
    ensures 0 <= i < n
  {
    ActiveIndex(RoundDiv(x, cardWidth) - ClonesCount, n)
  }

  /** The scroll offset that brings strip position `p` into view. */
  function OffsetOf(p: int, cardWidth: int): (offset: int)
  {
    cardWidth * p
  }

  /** The offset `cardWidth * p` is exactly on position `p`. */
  lemma RoundDivOnCard(p: int, w: int)
    requires w > 0
    ensures RoundDiv(OffsetOf(p, w), w) == p
  {
    assert 2 * w * p - w <= 2 * (w * p) < 2 * w * p + w;
    RoundDivUnique(w * p, w, p);
  }

  /**
   * At the offset of strip position `p` the active dot is `(p - 3) mod N`: the
   * initial offset `cardWidth * 3` (p = 3) activates dot 0, and every step of one
   * card width forward activates the next dot, wrapping after N steps.
   */
  lemma ActiveIndexOnCard(p: int, w: int, n: int)
    requires w > 0 && n >= 1
    ensures ActiveIndexAt(OffsetOf(p, w), w, n) == (p - ClonesCount) % n
  {
    RoundDivOnCard(p, w);
  }

  /**
   * Clicking dot `i` scrolls to `cardWidth * (i + clonesCount)`, where dot `i`
   * becomes the active one: the dot-to-offset map and the offset-to-dot map are
   * inverse on the real cards.
   */
  lemma DotTargetRoundTrip(i: int, w: int, n: int)
    requires w > 0 && 0 <= i < n
    ensures ActiveIndexAt(OffsetOf(i + ClonesCount, w), w, n) == i
  {
    ActiveIndexOnCard(i + ClonesCount, w, n);
    ModUnique(i, n, 0, i);
  }

  /** Starting at the first real card, N card-width steps forward return to dot 0. */
  lemma FullTurnReturnsToFirstDot(w: int, n: int)
    requires w > 0 && n >= 1
    ensures ActiveIndexAt(OffsetOf(ClonesCount + n, w), w, n) == 0
  {
    ActiveIndexOnCard(ClonesCount + n, w, n);
    ModUnique(n, n, 1, 0);
  }

  /** Moving the offset by `j` card widths moves the rounded position by `j`. */
  lemma RoundDivShift(x: int, w: int, j: int)
    requires w > 0
    ensures RoundDiv(x + w * j, w) == RoundDiv(x, w) + j
    ensures RoundDiv(x - w * j, w) == RoundDiv(x, w) - j
  {
    var r := RoundDiv(x, w);
    var d := w * j;
    assert 2 * w * (r + j) == 2 * w * r + 2 * d;
    assert 2 * w * (r - j) == 2 * w * r - 2 * d;
    RoundDivUnique(x + d, w, r + j);
    RoundDivUnique(x - d, w, r - j);
  }

  /**
   * A teleport moves the offset by `cardWidth * N`, forward or back, and
   * leaves the active dot, and so the card the user sees, unchanged.
   */
  lemma TeleportKeepsActiveIndex(x: int, w: int, n: int)
    requires w > 0 && n >= 1
    ensures ActiveIndexAt(x + w * n, w, n) == ActiveIndexAt(x, w, n)
    ensures ActiveIndexAt(x - w * n, w, n) == ActiveIndexAt(x, w, n)
  {
    var a := RoundDiv(x, w) - ClonesCount;
    RoundDivShift(x, w, n);
    ModShift(a, 1, n);
    ModShift(a, -1, n);
  }
}
