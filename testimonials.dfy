/**
 * The testimonial carousel: one index into the list of reviews, moved a page of
 * three at a time with wrap-around, and a row of page dots.
 */
module Testimonials {
  import opened Wrappers

  /** Reviews shown at once. */
  const ItemsPerPage: nat := 3

  /** The number of reviews on the page. */
  const ShippedCount: nat := 6

  /** `nextSlide`: a page forward, back to the start past the end; from a review it stays
      on a review. */
  function NextIndex(idx: int, len: nat): (r: int)
    ensures 0 <= idx ==> 0 <= r && (len > 0 ==> r < len)
  {
    if idx + ItemsPerPage >= len then 0 else idx + ItemsPerPage
  }

  /** `prevSlide`: a page back, to the last full page before the start; with at least a
      page of reviews, from a review it stays on a review. */
  function PrevIndex(idx: int, len: nat): (r: int)
    ensures 0 <= idx < len && ItemsPerPage <= len ==> 0 <= r < len
  {
    if idx - ItemsPerPage < 0 then len - ItemsPerPage else idx - ItemsPerPage
  }

  /** `Math.ceil(len / itemsPerPage)` page dots. */
  function PageCount(len: nat): (n: nat)
    ensures n * ItemsPerPage >= len
    ensures n > 0 ==> (n - 1) * ItemsPerPage < len
  {
    (len + ItemsPerPage - 1) / ItemsPerPage
  }

  /** `Math.floor(idx / itemsPerPage)`: the dot drawn as active. */
  function ActiveDot(idx: nat): nat {
    idx / ItemsPerPage
  }

  /** `items.slice(idx, idx + itemsPerPage)`. */
  function Window<T>(items: seq<T>, idx: nat): (r: seq<T>)
    requires idx < |items|
    ensures 1 <= |r| <= ItemsPerPage
    ensures forall j | 0 <= j < |r| :: idx + j < |items| && r[j] == items[idx + j]
    ensures |r| == ItemsPerPage || idx + |r| == |items|
  {
    items[idx..Min(idx + ItemsPerPage, |items|)]
  }

  class Carousel<T> {
    const items: seq<T>
    var currentIndex: int

    predicate Valid()
      reads this
    {
      |items| >= ItemsPerPage && 0 <= currentIndex < |items|
    }

    /** The carousel starts on the first page. */
    constructor (items: seq<T>)
      requires |items| >= ItemsPerPage
      ensures this.items == items && currentIndex == 0
      ensures Valid()
    {
      this.items := items;
      currentIndex := 0;
    }

    /** The reviews on screen. */
    function CurrentTestimonials(): (r: seq<T>)
      reads this
      requires Valid()
      ensures 1 <= |r| <= ItemsPerPage
      ensures forall j | 0 <= j < |r| :: currentIndex + j < |items| && r[j] == items[currentIndex + j]
    {
      Window(items, currentIndex)
    }

    /** The dot drawn as active; it is always one of the dots. */
    function ActivePage(): (k: nat)
      reads this
      requires Valid()
      ensures k < PageCount(|items|)
    {
      ActiveDot(currentIndex)
    }

    method NextSlide()
      requires Valid()
      modifies this
      ensures currentIndex == NextIndex(old(currentIndex), |items|)
      ensures Valid()
    {
      currentIndex := NextIndex(currentIndex, |items|);
    }

    method PrevSlide()
      requires Valid()
      modifies this
      ensures currentIndex == PrevIndex(old(currentIndex), |items|)
      ensures Valid()
    {
      currentIndex := PrevIndex(currentIndex, |items|);
    }

    /** Clicking dot `k`; the dot clicked becomes the active one. */
    method GoToPage(k: nat)
      requires Valid() && k < PageCount(|items|)
      modifies this
      ensures currentIndex == k * ItemsPerPage
      ensures Valid() && ActivePage() == k
    {
      DotClick(k, |items|);
      currentIndex := k * ItemsPerPage;
    }
  }

  /** Dot `k` starts a page inside the list, and that page's active dot is `k`. */
  lemma DotClick(k: nat, len: nat)
    requires k < PageCount(len)
    ensures k * ItemsPerPage < len
    ensures ActiveDot(k * ItemsPerPage) == k
  {
  }

  /** When the list is whole pages, the steps move between page starts, and each
      undoes the other. */
  lemma StepsBetweenPages(idx: int, len: nat)
    requires len % ItemsPerPage == 0 && 0 <= idx < len && idx % ItemsPerPage == 0
    ensures NextIndex(idx, len) % ItemsPerPage == 0 && PrevIndex(idx, len) % ItemsPerPage == 0
    ensures PrevIndex(NextIndex(idx, len), len) == idx
    ensures NextIndex(PrevIndex(idx, len), len) == idx
  {
  }

  /** When the list is not whole pages, going forward from the last page start and
      back does not return: with seven reviews, 6 goes to 0 and then to 4. */
  lemma StepsOffPage()
    ensures NextIndex(6, 7) == 0 && PrevIndex(0, 7) == 4
  {
  }

  /** `n` forward steps from the start. */
  function Forward(n: nat, len: nat): int {
    if n == 0 then 0 else NextIndex(Forward(n - 1, len), len)
  }

  /** Stepping forward visits the page starts in order. */
  lemma {:induction false} ForwardVisitsPages(n: nat, len: nat)
    requires n * ItemsPerPage < len
    ensures Forward(n, len) == n * ItemsPerPage
  {
    if n > 0 {
      ForwardVisitsPages(n - 1, len);
    }
  }

  /** A set of indices that neither step leaves. */
  ghost predicate Closed(indices: set<int>, len: nat) {
    forall i | i in indices :: NextIndex(i, len) in indices && PrevIndex(i, len) in indices
  }

  /** With the six shipped reviews the indices reachable from 0 are exactly 0 and 3:
      {0, 3} is closed under both steps, and every closed set holding 0 holds 3. */
  lemma ShippedReachable()
    ensures Closed({0, 3}, ShippedCount)
    ensures forall indices: set<int> | 0 in indices && Closed(indices, ShippedCount) :: 3 in indices
  {
    assert NextIndex(0, ShippedCount) == 3;
  }
}
