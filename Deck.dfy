/** The slide records the notes artifact service and the song prompt generator
    read: each slide has a kind, a title, body lines and option items (a
    checklist item bound to one body line). */
module Deck {

  datatype SlideType = TitleSlide | StandardSlide | NotesSlide | MainMenuSlide

  datatype OptionItem = OptionItem(lineIndex: int, text: string, isSelected: bool)

  datatype TypedSlide = TypedSlide(
    slideType: SlideType,
    title: string,
    bodyLines: seq<string>,
    optionItems: seq<OptionItem>)
}
