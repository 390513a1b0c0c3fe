/** The FAQ accordion (app/components/FAQSection.js): one state variable,
    `openIndex`, holds the open question or null. */
module Faq {
  import opened Wrappers

  /** The number of questions the section lists. */
  const FaqCount: nat := 5

  /** `toggleFAQ(index)` on the value of `openIndex`. */
  function Toggle(openIndex: Option<int>, index: int): Option<int>
  {
    if openIndex == Some(index) then None else Some(index)
  }

  class FaqSection {
    var openIndex: Option<int>

    /** `openIndex` is null or names one of the listed questions. */
    predicate Valid()
      reads this
    {
      openIndex.None? || 0 <= openIndex.value < FaqCount
    }

    /** Question `i` is rendered expanded. */
    predicate IsOpen(i: int)
      reads this
    {
      openIndex == Some(i)
    }

    /** `useState(null)`: the section starts with every question closed. */
    constructor ()
      ensures Valid()
      ensures forall i :: !IsOpen(i)
    {
      openIndex := None;
    }

    /** `toggleFAQ(index)`, reached from the button of question `index`. */
    method ToggleFaq(index: int)
      requires Valid() && 0 <= index < FaqCount
      modifies this
      ensures Valid()
      ensures openIndex == Toggle(old(openIndex), index)
      ensures old(IsOpen(index)) ==> forall i :: !IsOpen(i)
      ensures !old(IsOpen(index)) ==> IsOpen(index) && forall i :: i != index ==> !IsOpen(i)
    {
      openIndex := if openIndex == Some(index) then None else Some(index);
    }
  }

  /** Toggling the same question twice restores the earlier state exactly
      when nothing or that very question was open before; if another
      question was open, it stays closed. */
  lemma {:induction false} ToggleTwice(openIndex: Option<int>, index: int)
    ensures Toggle(Toggle(openIndex, index), index) == openIndex <==>
      openIndex == None || openIndex == Some(index)
    ensures Toggle(Toggle(openIndex, index), index) == openIndex || Toggle(Toggle(openIndex, index), index) == None
  {
  }
}
