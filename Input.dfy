/** InputActionMapper: the table from a pressed key to what the session does
    with it. */
module Input {
  /** The System.ConsoleKey values of the keys named below: Backspace 8,
      Enter 13, Escape 27, Spacebar 32, LeftArrow 37, UpArrow 38,
      RightArrow 39, DownArrow 40, Insert 45, Q 81 and F1 112. */
  const NamedKeyCodes: set<int> := {8, 13, 27, 32, 37, 38, 39, 40, 45, 81, 112}

  /** The value of a key that is none of the named ones. */
  type OtherKeyCode = code: int | code !in NamedKeyCodes witness 0

  /** The keys the viewer and the mapper name; every other key is Other,
      carrying its own ConsoleKey value. */
  datatype ConsoleKey =
    | RightArrow | LeftArrow | UpArrow | DownArrow
    | Spacebar | Insert | F1 | Escape | Enter | Backspace | Q
    | Other(code: OtherKeyCode)

  /** ConsoleKeyInfo: the key, the character it typed and the modifier keys
      held down. */
  datatype KeyInfo = KeyInfo(key: ConsoleKey, keyChar: char, shift: bool, alt: bool, control: bool)

  datatype InputAction =
    | None
    | NextSlide
    | PreviousSlide
    | MoveOptionFocusUp
    | MoveOptionFocusDown
    | ToggleOption
    | AddNote
    | JumpToNotes
    | Escape
    | Confirm

  /** The nine keys that have an action. */
  const MappedKeys: seq<ConsoleKey> := [RightArrow, LeftArrow, UpArrow, DownArrow, Spacebar, Insert, F1, ConsoleKey.Escape, Enter]

  /** InputActionMapper.Map: a switch on the key alone. */
  function Map(keyInfo: KeyInfo): (a: InputAction)
    ensures a == None <==> keyInfo.key !in MappedKeys
  {
    match keyInfo.key
    case RightArrow => NextSlide
    case LeftArrow => PreviousSlide
    case UpArrow => MoveOptionFocusUp
    case DownArrow => MoveOptionFocusDown
    case Spacebar => ToggleOption
    case Insert => AddNote
    case F1 => JumpToNotes
    case Escape => InputAction.Escape
    case Enter => Confirm
    case _ => None
  }

  /** The one key that produces an action. */
  function KeyFor(action: InputAction): (k: ConsoleKey)
    requires action != None
    ensures k in MappedKeys
  {
    match action
    case NextSlide => RightArrow
    case PreviousSlide => LeftArrow
    case MoveOptionFocusUp => UpArrow
    case MoveOptionFocusDown => DownArrow
    case ToggleOption => Spacebar
    case AddNote => Insert
    case JumpToNotes => F1
    case Escape => ConsoleKey.Escape
    case Confirm => Enter
  }

  /** The arrow keys move between slides and between options. */
  lemma ArrowKeys(keyChar: char, shift: bool, alt: bool, control: bool)
    ensures Map(KeyInfo(RightArrow, keyChar, shift, alt, control)) == NextSlide
    ensures Map(KeyInfo(LeftArrow, keyChar, shift, alt, control)) == PreviousSlide
    ensures Map(KeyInfo(UpArrow, keyChar, shift, alt, control)) == MoveOptionFocusUp
    ensures Map(KeyInfo(DownArrow, keyChar, shift, alt, control)) == MoveOptionFocusDown
  {
  }

  /** Space, Insert, F1, Escape and Enter; Backspace and Q have no action
      here. */
  lemma OtherKeys(keyChar: char, shift: bool, alt: bool, control: bool)
    ensures Map(KeyInfo(Spacebar, keyChar, shift, alt, control)) == ToggleOption
    ensures Map(KeyInfo(Insert, keyChar, shift, alt, control)) == AddNote
    ensures Map(KeyInfo(F1, keyChar, shift, alt, control)) == JumpToNotes
    ensures Map(KeyInfo(ConsoleKey.Escape, keyChar, shift, alt, control)) == InputAction.Escape
    ensures Map(KeyInfo(Enter, keyChar, shift, alt, control)) == Confirm
    ensures Map(KeyInfo(Backspace, keyChar, shift, alt, control)) == None
    ensures Map(KeyInfo(Q, keyChar, shift, alt, control)) == None
  {
  }

  /** The typed character and the modifiers play no part. */
  lemma MapDependsOnKeyOnly(x: KeyInfo, y: KeyInfo)
    requires x.key == y.key
    ensures Map(x) == Map(y)
  {
  }

  /** KeyFor names a key that produces the action. */
  lemma KeyForProduces(action: InputAction, keyChar: char, shift: bool, alt: bool, control: bool)
    requires action != None
    ensures Map(KeyInfo(KeyFor(action), keyChar, shift, alt, control)) == action
  {
  }

  /** No other key produces it: each action other than None has exactly one
      key. */
  lemma KeyForUnique(keyInfo: KeyInfo)
    requires Map(keyInfo) != None
    ensures keyInfo.key == KeyFor(Map(keyInfo))
  {
  }
}
