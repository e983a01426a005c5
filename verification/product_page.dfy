/**
  The older product page's form resolver: it checks the input of the selected
  mode only, and never the title.
*/
module ProductPage {
  import opened Wrappers
  import opened Text

  /** The selected input tab. */
  datatype InputMode = TextMode | LinkMode | PdfMode | WebhookMode

  datatype InputError = TextRequired | LinkRequired | LinkInvalid | PdfRequired

  datatype PageValues = PageValues(username: Option<string>, textInput: Option<string>, linkInput: Option<string>, pdfInput: Option<string>)

  datatype PageErrors = PageErrors(textInput: Option<InputError>, linkInput: Option<InputError>, pdfInput: Option<InputError>)

  datatype PageResolution = PageResolution(values: PageValues, errors: PageErrors)

  /** The per-mode checks of the text input, the link input and the chosen PDF file. */
  function InputErrors(mode: InputMode, textInput: Option<string>, linkInput: Option<string>, pdfChosen: bool):
    (r: PageErrors)
    ensures r.textInput.Some? <==> mode == TextMode && Falsy(textInput)
    ensures r.textInput.Some? ==> r.textInput == Some(TextRequired)
    ensures r.linkInput == Some(LinkRequired) <==> mode == LinkMode && Falsy(linkInput)
    ensures r.linkInput == Some(LinkInvalid) <==> mode == LinkMode && !Falsy(linkInput) && !IsHttpUrl(linkInput.value)
    ensures r.linkInput.Some? ==> r.linkInput == Some(LinkRequired) || r.linkInput == Some(LinkInvalid)
    ensures r.pdfInput.Some? <==> mode == PdfMode && !pdfChosen
    ensures r.pdfInput.Some? ==> r.pdfInput == Some(PdfRequired)
  {
    LinkPatternIff(linkInput.GetOr(""));
    match mode
    case TextMode => PageErrors(if Falsy(textInput) then Some(TextRequired) else None, None, None)
    case LinkMode =>
      PageErrors(None,
        if Falsy(linkInput) then Some(LinkRequired)
        else if !MatchesLinkPattern(linkInput.value) then Some(LinkInvalid)
        else None,
        None)
    case PdfMode => PageErrors(None, None, if !pdfChosen then Some(PdfRequired) else None)
    case WebhookMode => PageErrors(None, None, None)
  }

  /** The page's `resolver`: the values come back unchanged beside the input errors. */
  function Resolve(mode: InputMode, data: PageValues, pdfChosen: bool): (r: PageResolution)
    ensures r.values == data
    ensures mode == WebhookMode ==> r.errors == PageErrors(None, None, None)
    ensures r.errors.textInput.Some? <==> mode == TextMode && Falsy(data.textInput)
    ensures r.errors.linkInput.Some? <==> mode == LinkMode && (Falsy(data.linkInput) || !IsHttpUrl(data.linkInput.value))
    ensures r.errors.pdfInput.Some? <==> mode == PdfMode && !pdfChosen
  {
    PageResolution(data, InputErrors(mode, data.textInput, data.linkInput, pdfChosen))
  }

  /** Sample links: the pattern needs a character after the scheme and a lower-case `http`. */
  lemma LinkExamples()
    ensures MatchesLinkPattern("http://x") && MatchesLinkPattern("https://example.com")
    ensures !MatchesLinkPattern("https://") && !MatchesLinkPattern("ftp://x")
    ensures !MatchesLinkPattern("HTTP://x") && !MatchesLinkPattern("https://\nx")
  {
    assert "HTTP://x"[..4][0] == 'H';
    assert "ftp://x"[..4][0] == 'f';
  }
}
