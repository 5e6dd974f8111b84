/**
 * The question-and-answer accordion of the Chin page: at most one answer is
 * open at a time, a button toggles its own answer, and the arrow keys move the
 * keyboard focus to the next or previous button, wrapping around the list.
 *
 * Moving the focus is a DOM call; the model returns the index of the button
 * that would receive it.
 */
module ChinFaq {
  import opened Wrappers

  /** The number of questions on the page (`faqs.length`). */
  const FaqCount := 5

  /** Item j is shown open. */
  predicate IsOpen(openIndex: Option<int>, j: int)
  {
    openIndex == Some(j)
  }

  /** `toggle(index)`: closes the item when it is the open one, otherwise opens it (closing
      whichever other item was open). */
  function Toggled(openIndex: Option<int>, index: int): (toggled: Option<int>)
    ensures forall j :: IsOpen(toggled, j) <==> j == index && !IsOpen(openIndex, index)
  {
    if openIndex == Some(index) then None else Some(index)
  }

  /** Toggling the same item twice restores the accordion exactly when that item was the open
      one or nothing was open; when another item was open, it stays closed. */
  lemma ToggleTwice(openIndex: Option<int>, index: int)
    ensures Toggled(Toggled(openIndex, index), index) == openIndex
      <==> openIndex.None? || openIndex == Some(index)
  {
  }

  /** The ArrowDown target `(index + 1) % n`: the next button, the first after the last. */
  function NextIndex(index: int, n: int): (next: int)
    requires 0 <= index < n
    ensures 0 <= next < n
    ensures index < n - 1 ==> next == index + 1
    ensures index == n - 1 ==> next == 0
  {
    (index + 1) % n
  }

  /** The ArrowUp target `(index - 1 + n) % n`: the previous button, the last before the
      first. */
  function PrevIndex(index: int, n: int): (prev: int)
    requires 0 <= index < n
    ensures 0 <= prev < n
    ensures 0 < index ==> prev == index - 1
    ensures index == 0 ==> prev == n - 1
  {
    (index - 1 + n) % n
  }

  /** ArrowDown then ArrowUp, or ArrowUp then ArrowDown, returns the focus to where it was. */
  lemma ArrowsInverse(index: int, n: int)
    requires 0 <= index < n
    ensures PrevIndex(NextIndex(index, n), n) == index
    ensures NextIndex(PrevIndex(index, n), n) == index
  {
  }

  /** The button reached after pressing ArrowDown k times. */
  function StepsDown(index: int, n: int, k: nat): (reached: int)
    requires 0 <= index < n
    ensures 0 <= reached < n
  {
    if k == 0 then index else NextIndex(StepsDown(index, n, k - 1), n)
  }

  /** Up to a full lap, k ArrowDown presses move k buttons on, wrapping past the last. */
  lemma {:induction false} StepsDownWrap(index: int, n: int, k: nat)
    requires 0 <= index < n && k <= n
    ensures StepsDown(index, n, k) == if index + k < n then index + k else index + k - n
  {
    if k > 0 {
      StepsDownWrap(index, n, k - 1);
    }
  }

  /** A full lap of ArrowDown presses, one per question, returns to the start. */
  lemma ArrowDownFullLap(index: int, n: int)
    requires 0 <= index < n
    ensures StepsDown(index, n, n) == index
  {
    StepsDownWrap(index, n, n);
  }

  /** The accordion's state: the index of the open item, if any. */
  class FaqAccordion {
    var openIndex: Option<int>

    /** An open item is one of the questions. */
    ghost predicate Valid()
      reads this
    {
      openIndex.Some? ==> 0 <= openIndex.value < FaqCount
    }

    /** Every item starts closed. */
    constructor()
      ensures Valid() && openIndex == None
    {
      openIndex := None;
    }

    /** A click on button `index`. */
    method Toggle(index: int)
      requires Valid() && 0 <= index < FaqCount
      modifies this
      ensures Valid()
      ensures openIndex == Toggled(old(openIndex), index)
    {
      openIndex := if openIndex == Some(index) then None else Some(index);
    }

    /** `handleKeyDown` on button `index`: Enter and Space toggle the item, the arrow keys
        only move the focus, and every other key is left to the browser. Returns the button
        to focus and whether the browser's default action is suppressed. */
    method KeyDown(key: string, index: int) returns (focus: Option<int>, preventDefault: bool)
      requires Valid() && 0 <= index < FaqCount
      modifies this
      ensures Valid()
      ensures key == "Enter" || key == " " ==>
        openIndex == Toggled(old(openIndex), index) && focus.None? && preventDefault
      ensures key == "ArrowDown" ==>
        openIndex == old(openIndex) && focus == Some(NextIndex(index, FaqCount)) && preventDefault
      ensures key == "ArrowUp" ==>
        openIndex == old(openIndex) && focus == Some(PrevIndex(index, FaqCount)) && preventDefault
      ensures !(key in ["Enter", " ", "ArrowDown", "ArrowUp"]) ==>
        openIndex == old(openIndex) && focus.None? && !preventDefault
    {
      focus, preventDefault := None, false;
      if key == "Enter" || key == " " {
        preventDefault := true;
        Toggle(index);
      } else if key == "ArrowDown" {
        preventDefault := true;
        focus := Some((index + 1) % FaqCount);
      } else if key == "ArrowUp" {
        preventDefault := true;
        focus := Some((index - 1 + FaqCount) % FaqCount);
      }
    }
  }
}
