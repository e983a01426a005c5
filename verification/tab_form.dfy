/**
  The tab editor form: its resolver, the mapping from form values to the `Tab`
  handed to `onSubmit` / `onSave`, and the values it loads from a tab.
*/
module TabForm {
  import opened Wrappers
  import opened Text
  import opened Types
  import opened ProductPage
  import SaveRoute

  /** The form's fields; any may be undefined, as when the form is seeded from no tab. */
  datatype FormValues = FormValues(
    title: Option<string>,
    textInput: Option<string>,
    linkInput: Option<string>,
    pdfInput: Option<string>,
    questions: Option<seq<Question>>)

  datatype TitleError = TitleRequired

  datatype FormErrors = FormErrors(
    title: Option<TitleError>,
    textInput: Option<InputError>,
    linkInput: Option<InputError>,
    pdfInput: Option<InputError>)

  datatype Resolution = Resolution(values: FormValues, errors: FormErrors)

  /** The form's `resolver`: the per-mode input check, then the title check, whatever the mode. */
  function Resolve(mode: InputMode, data: FormValues, pdfChosen: bool): (r: Resolution)
    ensures r.values == data
    ensures r.errors.title.Some? <==> Falsy(data.title)
    ensures r.errors.textInput.Some? <==> mode == TextMode && Falsy(data.textInput)
    ensures r.errors.linkInput == Some(LinkRequired) <==> mode == LinkMode && Falsy(data.linkInput)
    ensures r.errors.linkInput == Some(LinkInvalid) <==>
      mode == LinkMode && !Falsy(data.linkInput) && !IsHttpUrl(data.linkInput.value)
    ensures r.errors.pdfInput.Some? <==> mode == PdfMode && !pdfChosen
    ensures mode != LinkMode ==> r.errors.linkInput.None?
    ensures r.errors.title.Some? ==> r.errors.title == Some(TitleRequired)
    ensures r.errors.textInput.Some? ==> r.errors.textInput == Some(TextRequired)
    ensures r.errors.pdfInput.Some? ==> r.errors.pdfInput == Some(PdfRequired)
    ensures mode == WebhookMode ==> r.errors.textInput.None? && r.errors.linkInput.None? && r.errors.pdfInput.None?
  {
    var input := InputErrors(mode, data.textInput, data.linkInput, pdfChosen);
    Resolution(data, FormErrors(if Falsy(data.title) then Some(TitleRequired) else None,
                                input.textInput, input.linkInput, input.pdfInput))
  }

  /** The tab form's resolver is the older page's resolver plus the title check. */
  lemma ResolverExtendsPageResolver(mode: InputMode, data: FormValues, username: Option<string>, pdfChosen: bool)
    ensures var page := ProductPage.Resolve(mode, PageValues(username, data.textInput, data.linkInput, data.pdfInput), pdfChosen);
      var r := Resolve(mode, data, pdfChosen);
      r.errors == FormErrors(r.errors.title, page.errors.textInput, page.errors.linkInput, page.errors.pdfInput)
  {
  }

  /** The `Tab` built from the form: id of the current tab or "", and the text input doubling as description. */
  function BuildTab(data: FormValues, tab: Option<Tab>, userId: string): (r: TabPatch)
    ensures r.id == Some(if tab.Some? then tab.value.id else "")
    ensures r.title == data.title && r.userId == Some(userId) && r.questions == data.questions
    ensures r.description == data.textInput && r.textInput == data.textInput
    ensures r.urlInput == data.linkInput && r.fileInput == data.pdfInput
  {
    TabPatch(Some(match tab case Some(t) => t.id case None => ""), data.title, Some(userId),
             data.textInput, data.textInput, data.linkInput, data.pdfInput, data.questions)
  }

  /** `handleSave()`: nothing unless the form is dirty; otherwise the built tab goes to `onSave`. */
  function HandleSave(dirty: bool, data: FormValues, tab: Option<Tab>, userId: string): (r: Option<TabPatch>)
    ensures !dirty ==> r.None?
    ensures dirty ==> r == Some(BuildTab(data, tab, userId))
  {
    if !dirty then None else Some(BuildTab(data, tab, userId))
  }

  datatype Callback = OnSubmit(tab: TabPatch) | OnSave(tab: TabPatch)

  /** `handleSubmit(data)`: `onSubmit`, then `onSave`, with one and the same tab. */
  function HandleSubmit(data: FormValues, tab: Option<Tab>, userId: string): (r: seq<Callback>)
    ensures |r| == 2 && r[0].OnSubmit? && r[1].OnSave? && r[0].tab == r[1].tab == BuildTab(data, tab, userId)
  {
    var t := BuildTab(data, tab, userId);
    [OnSubmit(t), OnSave(t)]
  }

  /** `setFormData()`: the tab's fields, with "" and [] standing in when there is no tab. */
  function SetFormData(tab: Option<Tab>): (r: FormValues)
    ensures r.title.Some? && r.textInput.Some? && r.linkInput.Some? && r.pdfInput.Some? && r.questions.Some?
    ensures tab.None? ==> r == FormValues(Some(""), Some(""), Some(""), Some(""), Some([]))
    ensures tab.Some? ==> r == FormValues(Some(tab.value.title), Some(tab.value.textInput),
      Some(tab.value.urlInput), Some(tab.value.fileInput), Some(tab.value.questions))
  {
    match tab
    case Some(t) => FormValues(Some(t.title), Some(t.textInput), Some(t.urlInput), Some(t.fileInput), Some(t.questions))
    case None => FormValues(Some(""), Some(""), Some(""), Some(""), Some([]))
  }

  /** The form's initial `defaultValues`: the tab's fields, all undefined when there is no tab. */
  function DefaultValues(tab: Option<Tab>): (r: FormValues)
    ensures tab.None? ==> r == FormValues(None, None, None, None, None)
    ensures tab.Some? ==> r == SetFormData(tab)
  {
    match tab
    case Some(t) => SetFormData(tab)
    case None => FormValues(None, None, None, None, None)
  }

  /**
    Saving a tab's form unchanged sends back every field of the tab, except that
    the description is replaced by the text input.
  */
  lemma ReloadThenBuild(t: Tab)
    ensures BuildTab(SetFormData(Some(t)), Some(t), t.userId) ==
      TabPatch(Some(t.id), Some(t.title), Some(t.userId), Some(t.textInput), Some(t.textInput),
               Some(t.urlInput), Some(t.fileInput), Some(t.questions))
  {
  }

  /** A form opened on no tab saves with id "", so the save route creates; one opened on a tab with an id updates it. */
  lemma SaveRouting(data: FormValues, tab: Option<Tab>, userId: string)
    ensures tab.None? ==> SaveRoute.IsCreate(BuildTab(data, tab, userId))
    ensures tab.Some? && tab.value.id != "" ==>
      !SaveRoute.IsCreate(BuildTab(data, tab, userId)) && BuildTab(data, tab, userId).id == Some(tab.value.id)
  {
  }
}
