/**
 * The list of answers shown for the current question. The adapter lets the
 * player answer once per question: the first click records the choice and
 * reports it, later clicks are ignored until a new question's choices are
 * submitted. Once an answer is recorded every choice is coloured.
 */
module ChoiceList {
  import opened Wrappers
  import opened GameModel

  /** The card colours used for a choice. */
  datatype Colour = Gray300 | CorrectChoice | WrongChoice

  /**
   * The colour of `choice` while `selected` is the recorded answer (if any):
   * neutral before an answer, then correct choices are shown as correct
   * (the selected one too), the selected wrong choice as wrong, and the
   * rest stay neutral.
   */
  function ChoiceColour(selected: Option<Choice>, choice: Choice): (c: Colour)
    ensures selected.None? ==> c == Gray300
    ensures c == CorrectChoice <==> selected.Some? && choice.correct
    ensures c == WrongChoice <==> selected == Some(choice) && !choice.correct
  {
    if selected.None? then Gray300
    else if choice.correct then CorrectChoice
    else if Some(choice) == selected then WrongChoice
    else Gray300
  }

  /** The item identity used when diffing two lists of choices. */
  predicate AreItemsTheSame(oldItem: Choice, newItem: Choice) {
    oldItem.answer == newItem.answer && oldItem.correct == newItem.correct
  }

  /** The content equality used when diffing: structural equality of the data class. */
  predicate AreContentsTheSame(oldItem: Choice, newItem: Choice) {
    oldItem == newItem
  }

  /**
   * A choice has no fields beyond `answer` and `correct`, so the two diff
   * predicates are the same relation.
   */
  lemma ChoiceDiffPredicatesCoincide(oldItem: Choice, newItem: Choice)
    ensures AreContentsTheSame(oldItem, newItem) <==> AreItemsTheSame(oldItem, newItem)
  {
  }

  class ChoiceAdapter {
    /** The choices currently displayed. */
    var items: seq<Choice>
    /** The recorded answer for the displayed question, if any. */
    var selectedChoice: Option<Choice>

    constructor ()
      ensures items == [] && selectedChoice == None
    {
      items := [];
      selectedChoice := None;
    }

    predicate IsAnswerRecorded()
      reads this
    {
      selectedChoice.Some?
    }

    /**
     * A click on `choice`. `notified` is the choice passed to the click
     * listener, or `None` when the listener is not called.
     */
    method ChoiceSelected(choice: Choice) returns (notified: Option<Choice>)
      modifies this
      ensures items == old(items)
      ensures old(IsAnswerRecorded()) ==> selectedChoice == old(selectedChoice) && notified == None
      ensures !old(IsAnswerRecorded()) ==> selectedChoice == Some(choice) && notified == Some(choice)
      ensures IsAnswerRecorded()
    {
      if IsAnswerRecorded() {
        return None;
      }
      selectedChoice := Some(choice);
      notified := Some(choice);
    }

    /**
     * Shows a new list of choices (`None` clears the list) and forgets the
     * recorded answer, so the new question can be answered.
     */
    method SubmitList(list: Option<seq<Choice>>)
      modifies this
      ensures items == list.GetOr([])
      ensures selectedChoice == None && !IsAnswerRecorded()
      ensures forall c :: ChoiceColour(selectedChoice, c) == Gray300
    {
      selectedChoice := None;
      items := list.GetOr([]);
    }
  }
}
