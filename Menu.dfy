/** The main menu: three actions in a fixed order and a focus that MoveUp and
    MoveDown move through them, wrapping at both ends. */
module Menu {
  datatype MainMenuAction = Exit | StartNew | CreateSong

  /** ActionOrder, which Actions exposes. */
  const ActionOrder: seq<MainMenuAction> := [Exit, StartNew, CreateSong]

  /** Array.IndexOf(ActionOrder, a): every action occurs exactly once, so the
      result is never -1. */
  function IndexOfAction(a: MainMenuAction): (i: nat)
    ensures i < |ActionOrder| && ActionOrder[i] == a
    ensures forall j :: 0 <= j < |ActionOrder| && ActionOrder[j] == a ==> j == i
  {
    match a
    case Exit => 0
    case StartNew => 1
    case CreateSong => 2
  }

  /** The action after a, counting cyclically through ActionOrder. */
  function Next(a: MainMenuAction): MainMenuAction {
    ActionOrder[(IndexOfAction(a) + 1) % |ActionOrder|]
  }

  /** The action before a, counting cyclically through ActionOrder. */
  function Previous(a: MainMenuAction): MainMenuAction {
    ActionOrder[(IndexOfAction(a) + |ActionOrder| - 1) % |ActionOrder|]
  }

  /** Every action is in the menu, in the order Exit, StartNew, CreateSong,
      each exactly once. */
  lemma ActionsInOrder(a: MainMenuAction)
    ensures ActionOrder == [Exit, StartNew, CreateSong]
    ensures a in ActionOrder
    ensures forall i, j :: 0 <= i < j < |ActionOrder| ==> ActionOrder[i] != ActionOrder[j]
  {
    assert ActionOrder[IndexOfAction(a)] == a;
  }

  /** MoveDown steps one place forward and wraps from CreateSong to Exit. */
  lemma NextSteps(a: MainMenuAction)
    ensures IndexOfAction(a) < |ActionOrder| - 1 ==> IndexOfAction(Next(a)) == IndexOfAction(a) + 1
    ensures a == CreateSong <==> Next(a) == Exit
    ensures Next(Exit) == StartNew && Next(StartNew) == CreateSong && Next(CreateSong) == Exit
  {
  }

  /** MoveUp steps one place back and wraps from Exit to CreateSong. */
  lemma PreviousSteps(a: MainMenuAction)
    ensures IndexOfAction(a) > 0 ==> IndexOfAction(Previous(a)) == IndexOfAction(a) - 1
    ensures a == Exit <==> Previous(a) == CreateSong
    ensures Previous(Exit) == CreateSong && Previous(StartNew) == Exit && Previous(CreateSong) == StartNew
  {
  }

  /** MoveUp and MoveDown undo each other, in either order. */
  lemma NextPreviousInverse(a: MainMenuAction)
    ensures Previous(Next(a)) == a
    ensures Next(Previous(a)) == a
  {
    match a
    case Exit =>
    case StartNew =>
    case CreateSong =>
  }

  /** Three moves in the same direction return to the starting focus, and no
      fewer do. */
  lemma ThreeMovesCycle(a: MainMenuAction)
    ensures Next(Next(Next(a))) == a && Previous(Previous(Previous(a))) == a
    ensures Next(a) != a && Next(Next(a)) != a
    ensures Previous(a) != a && Previous(Previous(a)) != a
  {
    match a
    case Exit =>
    case StartNew =>
    case CreateSong =>
  }

  class MainMenuState {
    var focusedAction: MainMenuAction

    /** A new menu focuses Exit. */
    constructor ()
      ensures focusedAction == Exit
    {
      focusedAction := Exit;
    }

    /** The menu's actions, the same for every menu. */
    function Actions(): (r: seq<MainMenuAction>)
      ensures r == [Exit, StartNew, CreateSong]
    {
      ActionOrder
    }

    /** Focus the previous action; from the first, or an action not in the
        order, focus the last. */
    method MoveUp()
      modifies this
      ensures focusedAction == Previous(old(focusedAction))
    {
      var currentIndex := IndexOfAction(focusedAction);
      if currentIndex <= 0 {
        focusedAction := ActionOrder[|ActionOrder| - 1];
        return;
      }
      focusedAction := ActionOrder[currentIndex - 1];
    }

    /** Focus the next action; from the last, or an action not in the order,
        focus the first. */
    method MoveDown()
      modifies this
      ensures focusedAction == Next(old(focusedAction))
    {
      var currentIndex := IndexOfAction(focusedAction);
      if currentIndex >= |ActionOrder| - 1 {
        focusedAction := ActionOrder[0];
        return;
      }
      focusedAction := ActionOrder[currentIndex + 1];
    }
  }
}
