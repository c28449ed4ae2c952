/** The full-screen post viewer of components/ImagePopup.js: an index into
    the user's posts that the arrow buttons and keys move round in a
    circle. */
module ImagePopup {

  /** JavaScript's `%`, which truncates toward zero: the remainder takes the
      sign of the dividend. */
  function JsRem(a: int, n: int): (r: int)
    requires n > 0
    ensures a >= 0 ==> r == a % n
    ensures a >= 0 ==> 0 <= r < n
    ensures a < 0 ==> -n < r <= 0
  {
    if a >= 0 then a % n else -((-a) % n)
  }

  /** `handlePrev`: `(prev + 1) % posts.length`. */
  function PrevIndex(i: int, n: int): (r: int)
    requires n > 0
    ensures 0 <= i < n ==> 0 <= r < n
    ensures 0 <= i < n - 1 ==> r == i + 1
    ensures i == n - 1 ==> r == 0
  {
    JsRem(i + 1, n)
  }

  /** `handleNext`: `(prev - 1 + posts.length) % posts.length`. */
  function NextIndex(i: int, n: int): (r: int)
    requires n > 0
    ensures 0 <= i < n ==> 0 <= r < n
    ensures 0 < i < n ==> r == i - 1
    ensures i == 0 ==> r == n - 1
  {
    JsRem(i - 1 + n, n)
  }

  /** The two handlers undo each other. */
  lemma PrevNextInverse(i: int, n: int)
    requires n > 0 && 0 <= i < n
    ensures NextIndex(PrevIndex(i, n), n) == i
    ensures PrevIndex(NextIndex(i, n), n) == i
  {
  }

  /** `k` presses of the `handlePrev` button. */
  function PrevTimes(i: int, n: int, k: nat): int
    requires n > 0
  {
    if k == 0 then i else PrevIndex(PrevTimes(i, n, k - 1), n)
  }

  /** `k` presses of the `handleNext` button. */
  function NextTimes(i: int, n: int, k: nat): int
    requires n > 0
  {
    if k == 0 then i else NextIndex(NextTimes(i, n, k - 1), n)
  }

  /** Within one round, `k` presses of `handlePrev` move `k` posts on,
      wrapping past the last post to the first. */
  lemma {:induction false} PrevTimesWrap(i: int, n: int, k: nat)
    requires n > 0 && 0 <= i < n && k <= n
    ensures PrevTimes(i, n, k) == if i + k < n then i + k else i + k - n
  {
    if k > 0 {
      PrevTimesWrap(i, n, k - 1);
    }
  }

  /** Within one round, `k` presses of `handleNext` move `k` posts back,
      wrapping before the first post to the last. */
  lemma {:induction false} NextTimesWrap(i: int, n: int, k: nat)
    requires n > 0 && 0 <= i < n && k <= n
    ensures NextTimes(i, n, k) == if k <= i then i - k else i - k + n
  {
    if k > 0 {
      NextTimesWrap(i, n, k - 1);
    }
  }

  /** Pressing either button once per post comes back to the first post
      shown; with a single post the index never moves. */
  lemma FullCircle(i: int, n: int)
    requires n > 0 && 0 <= i < n
    ensures PrevTimes(i, n, n) == i && NextTimes(i, n, n) == i
    ensures n == 1 ==> PrevIndex(i, n) == 0 && NextIndex(i, n) == 0
  {
    PrevTimesWrap(i, n, n);
    NextTimesWrap(i, n, n);
  }

  /** The popup's state. `count` is `posts.length`; the component is only
      shown for a non-empty list. */
  class Popup {
    const count: nat
    var currentIndex: int

    predicate Valid()
      reads this
    {
      0 <= currentIndex < count
    }

    constructor (count: nat, initialIndex: int)
      requires count > 0
      ensures this.count == count && currentIndex == initialIndex
    {
      this.count := count;
      currentIndex := initialIndex;
    }

    method HandlePrev()
      requires count > 0
      modifies this
      ensures currentIndex == PrevIndex(old(currentIndex), count)
      ensures old(Valid()) ==> Valid()
    {
      currentIndex := PrevIndex(currentIndex, count);
    }

    method HandleNext()
      requires count > 0
      modifies this
      ensures currentIndex == NextIndex(old(currentIndex), count)
      ensures old(Valid()) ==> Valid()
    {
      currentIndex := NextIndex(currentIndex, count);
    }

    /** The window's `keydown` listener; `close` says whether `onClose` was
        called. */
    method HandleKeyDown(key: string) returns (close: bool)
      requires count > 0
      modifies this
      ensures close <==> key == "Escape"
      ensures key == "ArrowLeft" ==> currentIndex == PrevIndex(old(currentIndex), count)
      ensures key == "ArrowRight" ==> currentIndex == NextIndex(old(currentIndex), count)
      ensures key != "ArrowLeft" && key != "ArrowRight" ==> currentIndex == old(currentIndex)
    {
      close := key == "Escape";
      if key == "ArrowLeft" {
        HandlePrev();
      }
      if key == "ArrowRight" {
        HandleNext();
      }
    }
  }
}
