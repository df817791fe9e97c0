/**
  The QR generator page's state machine (qr-generator.js): the URL check run on
  input, the gate in front of QR generation, and the guard in front of the
  download. The page keeps three things these operations touch: the data URL
  of the last generated image, the error message on show, and whether the
  input is marked as erroneous.
*/
module QrApp {
  import opened Options
  import opened UrlValidation
  import opened DownloadName

  const INVALID_URL_MESSAGE: string := "Please enter a valid URL (e.g., https://example.com)"
  const EMPTY_URL_MESSAGE: string := "Please enter a URL"
  const GENERATION_FAILED_MESSAGE: string := "Failed to generate QR code. Please try again."
  const NOTHING_TO_DOWNLOAD_MESSAGE: string := "No QR code to download"

  /**
    What the external QR renderer does with an accepted URL: it completes, and
    the page then reads the image back as a data URL (`None` when the page finds
    neither a canvas nor a QR element), or it throws.
  */
  datatype RenderOutcome = Rendered(dataUrl: Option<string>) | RenderFailed

  /**
    The page state the core operations read and write: `currentDataUrl` is
    `currentQRDataURL` (`None` for `null`), `error` the message on show (`None`
    when the message element is hidden), `inputFlagged` the input's `error` class.
  */
  datatype Page = Page(currentDataUrl: Option<string>, error: Option<string>, inputFlagged: bool)

  /** The anchor the download creates: its `download` filename and its `href`. */
  datatype DownloadLink = DownloadLink(filename: string, href: string)

  /** The page as it is built: nothing generated, no error, input unmarked. */
  const INITIAL_PAGE: Page := Page(None, None, false)

  // ---------------------------------------------------------------- validateURL

  /**
    The page after `validateURL` ran on `value`: the error is cleared and the
    input unmarked, then both are set again when the value is rejected.
  */
  function Validated(p: Page, value: string): (r: Page)
    ensures r.currentDataUrl == p.currentDataUrl
    ensures ValidateUrl(value) <==> r.error.None?
    ensures !ValidateUrl(value) <==> r.error == Some(INVALID_URL_MESSAGE)
    ensures r.inputFlagged == !ValidateUrl(value)
  {
    if ValidateUrl(value) then p.(error := None, inputFlagged := false)
    else p.(error := Some(INVALID_URL_MESSAGE), inputFlagged := true)
  }

  /** Running the check again on the same value changes nothing further. */
  lemma ValidatedIdempotent(p: Page, value: string)
    ensures Validated(Validated(p, value), value) == Validated(p, value)
  {
  }

  // ---------------------------------------------------------------- generateQRCode

  /** Whether `generateQRCode` gets past its early returns: a non-empty trimmed value that validates. */
  predicate GenerationProceeds(value: string) {
    Trim(value) != [] && ValidateUrl(value)
  }

  /** The page after `generateQRCode` ran on `value`, with the renderer behaving as `render`. */
  function Generated(p: Page, value: string, render: RenderOutcome): (r: Page)
  {
    if Trim(value) == [] then p.(error := Some(EMPTY_URL_MESSAGE))
    else
      var checked := Validated(p, value);
      if !ValidateUrl(value) then checked
      else
        match render
        case Rendered(dataUrl) => checked.(currentDataUrl := dataUrl, error := None)
        case RenderFailed => checked.(error := Some(GENERATION_FAILED_MESSAGE))
  }

  /**
    Generation goes ahead exactly when the trimmed value is non-empty and in the
    language of the URL pattern.
  */
  lemma GenerationProceedsIff(value: string)
    ensures GenerationProceeds(value) <==> Trim(value) != [] && InUrlLanguage(Trim(value))
  {
    MatchesUrlPatternIff(Trim(value));
  }

  /**
    The stored data URL changes only through a generation that got past the gate
    and whose rendering completed; it then holds what the page read back.
  */
  lemma GenerateStoresOnlyOnSuccess(p: Page, value: string, render: RenderOutcome)
    ensures var r := Generated(p, value, render);
      r.currentDataUrl == if GenerationProceeds(value) && render.Rendered? then render.dataUrl else p.currentDataUrl
  {
  }

  /**
    The message shown after generation: "Please enter a URL" for a blank value,
    the invalid-URL message for a rejected one, the failure message when the
    renderer throws, and none after a success.
  */
  lemma GenerateMessages(p: Page, value: string, render: RenderOutcome)
    ensures var r := Generated(p, value, render);
      && (Trim(value) == [] ==> r.error == Some(EMPTY_URL_MESSAGE) && r.inputFlagged == p.inputFlagged)
      && (Trim(value) != [] && !ValidateUrl(value) ==> r.error == Some(INVALID_URL_MESSAGE) && r.inputFlagged)
      && (GenerationProceeds(value) ==> !r.inputFlagged)
      && (GenerationProceeds(value) && render.RenderFailed? ==> r.error == Some(GENERATION_FAILED_MESSAGE))
      && (GenerationProceeds(value) && render.Rendered? ==> r.error.None?)
  {
  }

  /** Padding the value with `\s` does not change what generation does. */
  lemma GenerateIgnoresPadding(p: Page, value: string, render: RenderOutcome)
    ensures Generated(p, value, render) == Generated(p, Trim(value), render)
  {
    TrimIdempotent(value);
    ValidateUrlIgnoresPadding(value);
  }

  // ---------------------------------------------------------------- downloadQRCode

  /** `!this.currentQRDataURL` is false: a data URL is stored and it is not the empty string. */
  predicate HasImage(dataUrl: Option<string>) {
    dataUrl.Some? && dataUrl.value != ""
  }

  /**
    `downloadQRCode` at the time `isoNow`: without an image it shows "No QR code
    to download" and creates nothing; otherwise it creates a link to the stored
    data URL under the timestamped filename.
  */
  function Downloaded(p: Page, isoNow: string): (r: (Page, Option<DownloadLink>))
  {
    if !HasImage(p.currentDataUrl) then (p.(error := Some(NOTHING_TO_DOWNLOAD_MESSAGE)), None)
    else (p, Some(DownloadLink(DownloadFilename(isoNow), p.currentDataUrl.value)))
  }

  /**
    A link is created exactly when an image is stored; it points at that image
    and its name is the timestamped `.png` name. Without an image, only the
    message changes.
  */
  lemma DownloadGuard(p: Page, isoNow: string)
    ensures var (q, link) := Downloaded(p, isoNow);
      && (link.Some? <==> HasImage(p.currentDataUrl))
      && q.currentDataUrl == p.currentDataUrl && q.inputFlagged == p.inputFlagged
      && (link.Some? ==> link.value.href == p.currentDataUrl.value && link.value.filename == DownloadFilename(isoNow) && q == p)
      && (link.None? ==> q.error == Some(NOTHING_TO_DOWNLOAD_MESSAGE))
  {
  }

  /** On a freshly built page, a generation stopped at the gate or failed in rendering leaves nothing to download. */
  lemma NoDownloadWithoutGeneration(value: string, render: RenderOutcome, isoNow: string)
    requires !GenerationProceeds(value) || render.RenderFailed?
    ensures Downloaded(Generated(INITIAL_PAGE, value, render), isoNow).1.None?
  {
    GenerateStoresOnlyOnSuccess(INITIAL_PAGE, value, render);
  }

  /** After a generation that rendered an image, the download links to exactly that image. */
  lemma DownloadAfterGeneration(p: Page, value: string, dataUrl: string, isoNow: string)
    requires GenerationProceeds(value) && dataUrl != ""
    ensures var link := Downloaded(Generated(p, value, Rendered(Some(dataUrl))), isoNow).1;
      link == Some(DownloadLink(DownloadFilename(isoNow), dataUrl))
  {
  }

  // ---------------------------------------------------------------- the page object

  /** `QRGeneratorApp`, reduced to the state its URL, generation and download logic touches. */
  class App {
    var currentDataUrl: Option<string>
    var error: Option<string>
    var inputFlagged: bool

    function State(): Page
      reads this
    {
      Page(currentDataUrl, error, inputFlagged)
    }

    constructor ()
      ensures State() == INITIAL_PAGE
    {
      currentDataUrl := None;
      error := None;
      inputFlagged := false;
    }

    /** `validateURL`, run on every input event with the input's current value. */
    method ValidateUrl(value: string) returns (ok: bool)
      modifies this
      ensures ok == UrlValidation.ValidateUrl(value)
      ensures State() == Validated(old(State()), value)
    {
      error := None;
      inputFlagged := false;
      var url := Trim(value);
      if url == [] {
        return true;
      }
      if !MatchesUrlPattern(url) {
        error := Some(INVALID_URL_MESSAGE);
        inputFlagged := true;
        return false;
      }
      return true;
    }

    /** `generateQRCode`, with the renderer's behaviour given as `render`. */
    method GenerateQrCode(value: string, render: RenderOutcome)
      modifies this
      ensures State() == Generated(old(State()), value, render)
    {
      var url := Trim(value);
      if url == [] {
        error := Some(EMPTY_URL_MESSAGE);
        return;
      }
      var ok := ValidateUrl(value);
      if !ok {
        return;
      }
      match render
      case Rendered(dataUrl) =>
        currentDataUrl := dataUrl;
        error := None;
      case RenderFailed =>
        error := Some(GENERATION_FAILED_MESSAGE);
    }

    /** `downloadQRCode` at the time `isoNow`; the link it would click is returned. */
    method DownloadQrCode(isoNow: string) returns (link: Option<DownloadLink>)
      modifies this
      ensures (State(), link) == Downloaded(old(State()), isoNow)
    {
      if currentDataUrl.None? || currentDataUrl.value == "" {
        error := Some(NOTHING_TO_DOWNLOAD_MESSAGE);
        return None;
      }
      link := Some(DownloadLink(DownloadFilename(isoNow), currentDataUrl.value));
    }
  }
}
