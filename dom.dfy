/** What the two announcement-list walkers read from the browser, as outcomes fixed in
    advance: each read either yields a value or throws. Locator counts of zero are the
    absent cases. */
module Dom {
  import opened Wrappers

  /** One read of the page: its value, or an exception. */
  datatype Read<+T> = Got(value: T) | Threw

  /** The first `td a.ahover` link of a row: absent, a count that throws, or present with
      the outcomes of reading its text and its `href` attribute (`None` when the attribute
      is missing). */
  datatype TitleProbe = NoLink | LinkCountThrew | Link(text: Read<string>, href: Read<Option<string>>)

  /** The first `span.time` element of a row. */
  datatype TimeProbe = NoTime | TimeCountThrew | Time(text: Read<string>)

  datatype RowProbe = RowProbe(title: TitleProbe, time: TimeProbe)

  /** The `button.btn-next` element: absent, or present with the outcomes of
      `is_disabled()` and of reading its `class` attribute. */
  datatype NextButton = NoButton | Button(disabled: Read<bool>, cls: Read<Option<string>>)

  /** How the wait after a click ends: the awaited change was seen, or it timed out and
      the fallback wait for table rows ran, and whether the rows appeared. */
  datatype Transition = Changed | Fallback(rowsAppeared: bool)

  /** `(attribute) or ""`: a missing attribute reads as the empty string. */
  function ClassText(cls: Option<string>): (r: string)
    ensures cls.None? ==> r == ""
    ensures cls.Some? ==> r == cls.value
  {
    match cls
    case None => ""
    case Some(c) => c
  }
}
