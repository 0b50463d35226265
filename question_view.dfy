/** The question renderer's dispatch from a question's tag to its widget. */
module QuestionView {
  import opened Wrappers
  import opened SurveyTypes

  datatype Widget =
    | CheckBoxWidget | RadioWidget | InputWidget | SelectWidget
    | TextAreaWidget | GroupWidget | UnitWidget

  /** The tag each widget answers to. */
  function WidgetTag(w: Widget): QuestionType {
    match w
    case CheckBoxWidget => Checkbox
    case RadioWidget => Radio
    case InputWidget => Input
    case SelectWidget => Select
    case TextAreaWidget => Textarea
    case GroupWidget => QuestionGroup
    case UnitWidget => Unit
  }

  /**
   * `switch (question.type)`: each of the seven tags picks its own widget
   * and any other tag renders nothing. The widget receives the renderer's
   * props unchanged, so only the choice of widget is modelled.
   */
  function Dispatch(tag: string): (w: Option<Widget>)
    ensures w.None? <==> tag !in KnownTags()
    ensures w.Some? ==> TagName(WidgetTag(w.value)) == tag
  {
    match ParseTag(tag)
    case Checkbox => Some(CheckBoxWidget)
    case Radio => Some(RadioWidget)
    case Input => Some(InputWidget)
    case Select => Some(SelectWidget)
    case Textarea => Some(TextAreaWidget)
    case QuestionGroup => Some(GroupWidget)
    case Unit => Some(UnitWidget)
    case Other(_) => None
  }

  /** Every widget is reached from exactly its own tag, so no two tags share a widget. */
  lemma DispatchInverse(w: Widget, tag: string)
    ensures Dispatch(tag) == Some(w) <==> tag == TagName(WidgetTag(w))
  {
  }
}
