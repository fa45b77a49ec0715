/** The state of one viewing session: the current slide, the slide to return
    to after a jump to the notes, the main menu, the notes taken and the
    focused option of each slide. */
module Session {
  import opened Wrappers
  import Menu

  /** The focus recorded for a slide, or 0 when none was recorded. */
  function FocusOf(focus: map<int, int>, slideIndex: int): (f: int)
    ensures slideIndex in focus ==> f == focus[slideIndex]
    ensures slideIndex !in focus ==> f == 0
  {
    if slideIndex in focus then focus[slideIndex] else 0
  }

  /** After a slide's focus is set, that slide reports the new focus. */
  lemma SetThenGet(focus: map<int, int>, slideIndex: int, focusIndex: int)
    ensures FocusOf(focus[slideIndex := focusIndex], slideIndex) == focusIndex
  {
  }

  /** Setting one slide's focus leaves every other slide's focus as it was. */
  lemma SetKeepsOthers(focus: map<int, int>, slideIndex: int, focusIndex: int, other: int)
    requires other != slideIndex
    ensures FocusOf(focus[slideIndex := focusIndex], other) == FocusOf(focus, other)
  {
  }

  /** A later set for the same slide overwrites the earlier one. */
  lemma SetOverwrites(focus: map<int, int>, slideIndex: int, first: int, second: int)
    ensures focus[slideIndex := first][slideIndex := second] == focus[slideIndex := second]
    ensures FocusOf(focus[slideIndex := first][slideIndex := second], slideIndex) == second
  {
  }

  /** A session whose focus was never set reports 0 for every slide. */
  lemma NeverSet(slideIndex: int)
    ensures FocusOf(map[], slideIndex) == 0
  {
  }

  class PresentationSession {
    var currentSlideIndex: int
    var previousSlideIndexBeforeNotesJump: Option<int>
    var isMainMenuOpen: bool
    var mainMenuState: Menu.MainMenuState
    var notes: seq<string>
    var focusBySlideIndex: map<int, int>

    /** A new session: first slide, no jump to return from, menu closed and
        focused on Exit, no notes and no recorded focus. */
    constructor ()
      ensures currentSlideIndex == 0
      ensures previousSlideIndexBeforeNotesJump == None
      ensures !isMainMenuOpen
      ensures fresh(mainMenuState) && mainMenuState.focusedAction == Menu.Exit
      ensures notes == []
      ensures focusBySlideIndex == map[]
    {
      currentSlideIndex := 0;
      previousSlideIndexBeforeNotesJump := None;
      isMainMenuOpen := false;
      mainMenuState := new Menu.MainMenuState();
      notes := [];
      focusBySlideIndex := map[];
    }

    /** The focused option of a slide; 0 for a slide whose focus was never
        set. */
    method GetFocusIndex(slideIndex: int) returns (index: int)
      ensures index == FocusOf(focusBySlideIndex, slideIndex)
      ensures slideIndex !in focusBySlideIndex ==> index == 0
    {
      if slideIndex in focusBySlideIndex {
        index := focusBySlideIndex[slideIndex];
      } else {
        index := 0;
      }
    }

    /** Record a slide's focused option; nothing else in the session
        changes. */
    method SetFocusIndex(slideIndex: int, focusIndex: int)
      modifies this`focusBySlideIndex
      ensures focusBySlideIndex == old(focusBySlideIndex)[slideIndex := focusIndex]
      ensures FocusOf(focusBySlideIndex, slideIndex) == focusIndex
      ensures forall other :: other != slideIndex ==> FocusOf(focusBySlideIndex, other) == old(FocusOf(focusBySlideIndex, other))
    {
      focusBySlideIndex := focusBySlideIndex[slideIndex := focusIndex];
    }
  }
}
