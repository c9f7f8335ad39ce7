/**
 * components/Carousel.tsx: a `startIndex` that the arrow buttons rotate
 * modulo the number of items, and the window of at most six items rendered
 * from it. The items are the component's props and do not change here.
 */
module CarouselComponent {
  import opened Collections

  /** How many items the carousel renders at once. */
  const VisibleCount: nat := 6

  /**
   * A JavaScript number as far as the index arithmetic reaches: an integer,
   * or NaN, which `x % 0` produces when the carousel has no items.
   */
  datatype JsNumber = Int(value: int) | NaN

  function Add(a: JsNumber, k: int): JsNumber
  {
    if a.NaN? then NaN else Int(a.value + k)
  }

  /**
   * JavaScript's `a % n`: NaN when either side is NaN or `n` is 0; otherwise
   * the remainder of the division truncated toward zero, which has the sign
   * of `a`.
   */
  function JsRem(a: JsNumber, n: int): (r: JsNumber)
    ensures r.NaN? <==> a.NaN? || n == 0
    ensures r.Int? && a.value >= 0 ==> 0 <= r.value < (if n < 0 then -n else n)
    ensures r.Int? && a.value < 0 ==> -(if n < 0 then -n else n) < r.value <= 0
  {
    if a.NaN? || n == 0 then NaN
    else
      var m := if n < 0 then -n else n;
      Int(if a.value >= 0 then a.value % m else -((-a.value) % m))
  }

  /** A non-negative number below `n` is its own remainder. */
  lemma ModOfSmall(a: int, n: int)
    requires 0 <= a < n
    ensures a % n == a
  {
  }

  /** Adding `n` once to a number below `n` does not change its remainder. */
  lemma ModOneWrap(a: int, n: int)
    requires 0 <= a < n
    ensures (a + n) % n == a
  {
    assert (a + n) / n == 1;
  }

  /**
   * The updater of `nextSlide`, `(prevIndex + 1) % items.length`: with items,
   * an index in range moves one step forward and wraps from the last to the
   * first; without items the result is NaN.
   */
  function NextIndex(i: JsNumber, n: nat): (r: JsNumber)
    ensures n == 0 || i.NaN? ==> r.NaN?
    ensures n > 0 && i.Int? && 0 <= i.value < n ==>
              r.Int? && 0 <= r.value < n && r.value == (if i.value == n - 1 then 0 else i.value + 1)
  {
    ForwardStep(i, n);
    JsRem(Add(i, 1), n)
  }

  lemma ForwardStep(i: JsNumber, n: nat)
    ensures n > 0 && i.Int? && 0 <= i.value < n ==>
              JsRem(Add(i, 1), n) == Int(if i.value == n - 1 then 0 else i.value + 1)
  {
    if n > 0 && i.Int? && 0 <= i.value < n {
      if i.value + 1 < n {
        ModOfSmall(i.value + 1, n);
      } else {
        ModOneWrap(0, n);
      }
    }
  }

  /**
   * The updater of `prevSlide`, `(prevIndex - 1 + items.length) % items.length`:
   * with items, an index in range moves one step back and wraps from the
   * first to the last; without items the result is NaN.
   */
  function PrevIndex(i: JsNumber, n: nat): (r: JsNumber)
    ensures n == 0 || i.NaN? ==> r.NaN?
    ensures n > 0 && i.Int? && 0 <= i.value < n ==>
              r.Int? && 0 <= r.value < n && r.value == (if i.value == 0 then n - 1 else i.value - 1)
  {
    BackwardStep(i, n);
    JsRem(Add(Add(i, -1), n), n)
  }

  lemma BackwardStep(i: JsNumber, n: nat)
    ensures n > 0 && i.Int? && 0 <= i.value < n ==>
              JsRem(Add(Add(i, -1), n), n) == Int(if i.value == 0 then n - 1 else i.value - 1)
  {
    if n > 0 && i.Int? && 0 <= i.value < n {
      if i.value == 0 {
        ModOfSmall(n - 1, n);
      } else {
        ModOneWrap(i.value - 1, n);
      }
    }
  }

  /** `prevSlide` after `nextSlide` restores the index. */
  lemma PrevUndoesNext(i: int, n: nat)
    requires 0 <= i < n
    ensures PrevIndex(NextIndex(Int(i), n), n) == Int(i)
  {
  }

  /** `nextSlide` after `prevSlide` restores the index. */
  lemma NextUndoesPrev(i: int, n: nat)
    requires 0 <= i < n
    ensures NextIndex(PrevIndex(Int(i), n), n) == Int(i)
  {
  }

  /** The index after `k` consecutive `nextSlide` calls. */
  function NextTimes(i: JsNumber, n: nat, k: nat): JsNumber
  {
    if k == 0 then i else NextIndex(NextTimes(i, n, k - 1), n)
  }

  /** Below the last item, `k` forward steps from `i` climb to `i + k`. */
  lemma {:induction false} NextTimesClimbs(i: int, n: nat, k: nat)
    requires 0 <= i && i + k < n
    ensures NextTimes(Int(i), n, k) == Int(i + k)
  {
    if k > 0 {
      NextTimesClimbs(i, n, k - 1);
    }
  }

  /** `a + b` forward steps are `a` steps followed by `b` steps. */
  lemma {:induction false} NextTimesAdd(x: JsNumber, n: nat, a: nat, b: nat)
    ensures NextTimes(x, n, a + b) == NextTimes(NextTimes(x, n, a), n, b)
  {
    if b > 0 {
      NextTimesAdd(x, n, a, b - 1);
    }
  }

  /** `n` consecutive `nextSlide` calls bring the carousel back to where it was. */
  lemma FullCycle(i: int, n: nat)
    requires 0 <= i < n
    ensures NextTimes(Int(i), n, n) == Int(i)
  {
    NextTimesClimbs(i, n, n - 1 - i);
    NextTimesAdd(Int(i), n, n - 1 - i, i + 1);
    NextTimesAdd(Int(n - 1), n, 1, i);
    assert NextTimes(Int(n - 1), n, 1) == Int(0);
    NextTimesClimbs(0, n, i);
  }

  /**
   * `items.slice(startIndex, startIndex + 6)`, NaN counting as 0 at both ends.
   * From an index in range the window runs from that index to six further or
   * to the end, whichever comes first; it does not wrap, so it holds fewer
   * than six items exactly when the index is past `items.length - 6`.
   */
  function Window<T>(items: seq<T>, start: JsNumber): (w: seq<T>)
    ensures start.NaN? ==> w == []
    ensures start.Int? && 0 <= start.value <= |items| ==>
              w == items[start.value..Min(start.value + VisibleCount, |items|)]
    ensures start.Int? && 0 <= start.value <= |items| ==>
              |w| <= VisibleCount && (|w| < VisibleCount <==> start.value > |items| - VisibleCount)
  {
    if start.NaN? then Slice(items, 0, 0)
    else Slice(items, start.value, start.value + VisibleCount)
  }

  class Carousel<T> {
    /** The `items` prop. */
    const items: seq<T>
    /** The `startIndex` state. */
    var startIndex: JsNumber

    /**
     * With items, the index is always in range; without items it is the
     * initial 0 or the NaN an arrow click leaves behind.
     */
    ghost predicate Valid()
      reads this
    {
      if |items| > 0 then startIndex.Int? && 0 <= startIndex.value < |items|
      else startIndex == Int(0) || startIndex.NaN?
    }

    /** `useState(0)`: the carousel starts at the first item. */
    constructor (items: seq<T>)
      ensures this.items == items && startIndex == Int(0)
      ensures Valid()
    {
      this.items := items;
      startIndex := Int(0);
    }

    /** `nextSlide`. */
    method NextSlide()
      requires Valid()
      modifies this
      ensures Valid()
      ensures startIndex == NextIndex(old(startIndex), |items|)
    {
      startIndex := JsRem(Add(startIndex, 1), |items|);
    }

    /** `prevSlide`. */
    method PrevSlide()
      requires Valid()
      modifies this
      ensures Valid()
      ensures startIndex == PrevIndex(old(startIndex), |items|)
    {
      startIndex := JsRem(Add(Add(startIndex, -1), |items|), |items|);
    }

    /** The items rendered: at most six, starting at `startIndex`. */
    function Visible(): (w: seq<T>)
      reads this
      requires Valid()
      ensures |w| <= VisibleCount
      ensures startIndex.Int? ==> w == items[startIndex.value..Min(startIndex.value + VisibleCount, |items|)]
      ensures |items| == 0 ==> w == []
    {
      Window(items, startIndex)
    }
  }
}
