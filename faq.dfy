/**
 * The FAQ accordion: an optional open item index, toggled by clicking a question.
 * At most one answer is shown, the one whose index is open.
 */
module Faq {
  import opened Wrappers

  /** The number of questions on the page. */
  const ItemCount: nat := 5

  /** Answer `i` is rendered. */
  predicate Visible(openIndex: Option<nat>, i: nat) {
    openIndex == Some(i)
  }

  /** The click rule: the open item closes, any other item opens in its place. */
  function Toggled(openIndex: Option<nat>, i: nat): (r: Option<nat>)
    ensures r.None? || r == Some(i)
  {
    if openIndex == Some(i) then None else Some(i)
  }

  class Accordion {
    var openIndex: Option<nat>

    /** The first answer starts open. */
    constructor ()
      ensures openIndex == Some(0)
      ensures AnswerVisible(0) && forall i: nat | i != 0 :: !AnswerVisible(i)
    {
      openIndex := Some(0);
    }

    predicate AnswerVisible(i: nat)
      reads this
    {
      Visible(openIndex, i)
    }

    /** Clicking the question of item `i`. */
    method Click(i: nat)
      requires i < ItemCount
      modifies this
      ensures openIndex == Toggled(old(openIndex), i)
      ensures AnswerVisible(i) <==> !old(AnswerVisible(i))
      ensures forall j: nat | j != i :: !AnswerVisible(j)
    {
      openIndex := Toggled(openIndex, i);
    }
  }

  /** At most one answer is shown. */
  lemma AtMostOneVisible(openIndex: Option<nat>, i: nat, j: nat)
    requires Visible(openIndex, i) && Visible(openIndex, j)
    ensures i == j
  {
  }

  /** A click shows the clicked answer exactly when it was hidden, and hides every other. */
  lemma ToggleFlips(openIndex: Option<nat>, i: nat, j: nat)
    ensures Visible(Toggled(openIndex, i), i) <==> !Visible(openIndex, i)
    ensures j != i ==> !Visible(Toggled(openIndex, i), j)
  {
  }

  /** Clicking the same question twice restores the state when nothing or that item
      was open; when another item was open, the second click leaves all closed. */
  lemma ToggleTwice(openIndex: Option<nat>, i: nat)
    ensures openIndex.None? || openIndex == Some(i) ==> Toggled(Toggled(openIndex, i), i) == openIndex
    ensures openIndex.Some? && openIndex != Some(i) ==> Toggled(Toggled(openIndex, i), i).None?
  {
  }
}
