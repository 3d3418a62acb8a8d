/**
 * The `Home` page: its state (the uploaded image, the analysis summary, the
 * poem, the analysis labels, the busy flags, the language and the poem-card
 * style) and the event handlers that update it. Every remote call
 * (`analyzeImage`, `generatePoem`, the card rasterisation) and every browser
 * event outcome (the file read, the presence of the card element,
 * `Math.random()`) is a parameter of the handler that waits for it; each
 * handler runs to completion before the next one starts.
 *
 * Each handler that can fail is specified by a step function on `PageState`
 * (`Upload`, `AnalyzeStep`, `GenerateStep`, `DownloadStep`); the lemmas
 * below state what the page promises about those steps, and the methods of
 * `Home` are proved to perform them.
 */
module Page {
  import opened Options
  import opened JsText
  import opened Colour

  datatype Language = En | Zh

  datatype CardSize = Small | Medium | Large

  /** The notifications the page raises; every one has the destructive variant. */
  datatype Toast =
    | FileReadError | FileReadAborted
    | NoImage | AnalysisFailed
    | NoAnalysis | PoemFailed
    | NoPoem | NoCard | DownloadFailed
  {
    function Title(): string {
      match this
      case FileReadError => "File read error"
      case FileReadAborted => "File read aborted"
      case NoImage => "No image uploaded"
      case AnalysisFailed => "Image analysis failed"
      case NoAnalysis => "No image analysis"
      case PoemFailed => "Poem generation failed"
      case NoPoem => "No poem generated"
      case NoCard => "Poem card not found"
      case DownloadFailed => "Download failed"
    }

    function Description(): string {
      match this
      case FileReadError => "Failed to read file."
      case FileReadAborted => "File read aborted."
      case NoImage => "Please upload an image first."
      case AnalysisFailed => "Image analysis failed. Please try again."
      case NoAnalysis => "Please analyze the image first."
      case PoemFailed => "Failed to generate poem. Please try again."
      case NoPoem => "Please generate a poem first."
      case NoCard => "Poem card could not be found."
      case DownloadFailed => "Failed to download poem card. Please try again."
    }
  }

  /** How the `FileReader` finished: `onload` with its result, `onerror` or `onabort`. */
  datatype FileRead = Loaded(result: string) | ReadFailed | ReadAborted

  /** What `analyzeImage` resolves to when it resolves to an object; a missing list is `undefined`. */
  datatype AnalysisResponse = AnalysisResponse(objects: Option<seq<string>>, scenes: Option<seq<string>>, emotions: Option<seq<string>>)

  /** `analyzeImage` rejects, or resolves to an object or to `null`/`undefined`. */
  datatype AnalysisOutcome = AnalysisRejected | AnalysisResolved(response: Option<AnalysisResponse>)

  datatype PoemOutcome = PoemRejected | PoemResolved(poem: string)

  datatype RasterOutcome = RasterFailed | RasterDone(dataUrl: string)

  /** The inline style the download handler writes onto the card element before rasterising it. */
  datatype CardStyle = CardStyle(fontFamily: string, color: string, backgroundColor: string, fontSize: string)

  /** A call that leaves the page: one of the two AI flows, or the rasterisation of the card. */
  datatype Request =
    | AnalyzeImage(photoUrl: string)
    | GeneratePoem(imageAnalysis: string, language: Language)
    | Rasterize(style: CardStyle)

  /** A click on a temporary download link. */
  datatype Download = Download(fileName: string, href: string)

  /**
   * Every `useState` value of the page, with the notifications raised, the
   * calls made and the downloads offered so far (oldest first).
   */
  datatype PageState = PageState(
    image: Option<string>, analysis: Option<string>, poem: Option<string>,
    objects: seq<string>, scenes: seq<string>, emotions: seq<string>,
    loadingImage: bool, loadingPoem: bool, isDownloading: bool,
    language: Language,
    cardSize: CardSize, fontFamily: string, fontSize: int, textColor: string, backgroundColor: string,
    toasts: seq<Toast>, requests: seq<Request>, downloads: seq<Download>)

  const DownloadFileName := "imageverse_poem.png"

  /** The first render: nothing uploaded, a medium serif 20px black-on-white card, English. */
  const InitialState := PageState(None, None, None, [], [], [], false, false, false,
                                  En, Medium, "serif", 20, "0 0% 0%", "0 0% 100%", [], [], [])

  /** A nullable string in a condition: `null` and `""` are false. */
  predicate Truthy(s: Option<string>) {
    s.Some? && s.value != ""
  }

  const ObjectsLabel := "Objects: "
  const ScenesLabel := ". Scenes: "
  const EmotionsLabel := ". Emotions: "
  const Undefined := "undefined"

  /** The analysis summary built from the three label lists. */
  function AnalysisSummary(objects: seq<string>, scenes: seq<string>, emotions: seq<string>): string {
    ObjectsLabel + Join(objects, ", ") + ScenesLabel + Join(scenes, ", ") + EmotionsLabel + Join(emotions, ", ")
  }

  /** The summary when `analyzeImage` resolves to nothing: every `?.` chain yields `undefined`. */
  const UndefinedSummary := ObjectsLabel + Undefined + ScenesLabel + Undefined + EmotionsLabel + Undefined

  /**
   * The summary a resolved analysis produces, or `None` when one of its lists
   * is missing and the `.join` on it throws.
   */
  function SummaryOf(response: Option<AnalysisResponse>): (summary: Option<string>)
    ensures summary.Some? ==> Truthy(summary) && ObjectsLabel <= summary.value
    ensures summary.None? <==>
              response.Some? && (response.value.objects.None? || response.value.scenes.None? || response.value.emotions.None?)
  {
    match response
    case None => Some(UndefinedSummary)
    case Some(r) =>
      if r.objects.Some? && r.scenes.Some? && r.emotions.Some? then
        Some(AnalysisSummary(r.objects.value, r.scenes.value, r.emotions.value))
      else None
  }

  /** `analysisResult?.objects || []`. */
  function ObjectsOf(response: Option<AnalysisResponse>): seq<string> {
    if response.Some? then response.value.objects.GetOr([]) else []
  }

  /** `analysisResult?.scenes || []`. */
  function ScenesOf(response: Option<AnalysisResponse>): seq<string> {
    if response.Some? then response.value.scenes.GetOr([]) else []
  }

  /** `analysisResult?.emotions || []`. */
  function EmotionsOf(response: Option<AnalysisResponse>): seq<string> {
    if response.Some? then response.value.emotions.GetOr([]) else []
  }

  /** The summary of one-label lists reads label by label. */
  lemma SummaryOfSingleLabels(o: string, s: string, e: string)
    ensures SummaryOf(Some(AnalysisResponse(Some([o]), Some([s]), Some([e]))))
            == Some(ObjectsLabel + o + ScenesLabel + s + EmotionsLabel + e)
  {
  }

  /** Several labels are separated by a comma and a space. */
  lemma SummaryOfTwoObjects(o1: string, o2: string, s: string, e: string)
    ensures AnalysisSummary([o1, o2], [s], [e]) == ObjectsLabel + o1 + ", " + o2 + ScenesLabel + s + EmotionsLabel + e
  {
    JoinPair(o1, o2, ", ");
  }

  /** A response of nothing reads as if each list held the one label `undefined`. */
  lemma UndefinedSummaryReadsAsLabels()
    ensures SummaryOf(None) == Some(AnalysisSummary([Undefined], [Undefined], [Undefined]))
  {
  }

  /** The style the card is rasterised with: the current style fields, colours wrapped in `hsl(…)`. */
  function StyleOf(p: PageState): CardStyle {
    CardStyle(p.fontFamily, "hsl(" + p.textColor + ")", "hsl(" + p.backgroundColor + ")", IntToDecimal(p.fontSize) + "px")
  }

  /** A font size from the slider is written as two digits and `px`, and the digits read back as the size. */
  lemma {:induction false} FontSizeReadsBack(p: PageState)
    requires 10 <= p.fontSize <= 40
    ensures var size := StyleOf(p).fontSize;
            |size| == 4 && size[2..] == "px" && AllDecimalDigits(size[..2]) && DecimalValue(size[..2]) == p.fontSize
  {
    var digits := NatToDecimal(p.fontSize);
    assert digits == NatToDecimal(p.fontSize / 10) + [DigitChar(p.fontSize % 10)];
    DecimalRoundTrip(p.fontSize);
    assert (digits + "px")[..2] == digits;
  }

  /**
   * What holds between handlers: the font size is within the slider's
   * range, both colours are `H S% L%` strings of in-range triples, an
   * analysis is non-empty and exists only for an uploaded image, a poem
   * exists only with an analysis, and nothing is busy.
   */
  ghost predicate ValidState(p: PageState) {
    && 10 <= p.fontSize <= 40
    && IsStoredColour(p.textColor) && IsStoredColour(p.backgroundColor)
    && (p.analysis.Some? ==> Truthy(p.analysis) && Truthy(p.image))
    && (p.poem.Some? ==> p.analysis.Some?)
    && !p.loadingImage && !p.loadingPoem && !p.isDownloading
  }

  lemma InitialStateValid()
    ensures ValidState(InitialState)
  {
    assert InRange(Hsl(0, 0, 0)) && FormatHsl(Hsl(0, 0, 0)) == "0 0% 0%";
    assert InRange(Hsl(0, 0, 100)) && FormatHsl(Hsl(0, 0, 100)) == "0 0% 100%";
  }

  function Notify(p: PageState, t: Toast): PageState {
    p.(toasts := p.toasts + [t])
  }

  function Ask(p: PageState, r: Request): PageState {
    p.(requests := p.requests + [r])
  }

  /** `handleImageUpload` together with the reader callback that fires. */
  function Upload(p: PageState, file: Option<FileRead>): PageState {
    match file
    case None => p
    case Some(Loaded(result)) =>
      p.(image := Some(result), analysis := None, poem := None, objects := [], scenes := [], emotions := [])
    case Some(ReadFailed) => Notify(p, FileReadError)
    case Some(ReadAborted) => Notify(p, FileReadAborted)
  }

  /** `analyze`, with the outcome of its one `analyzeImage` call. */
  function AnalyzeStep(p: PageState, outcome: AnalysisOutcome): PageState {
    if !Truthy(p.image) then Notify(p, NoImage)
    else
      var asked := Ask(p, AnalyzeImage(p.image.value));
      match outcome
      case AnalysisRejected => Notify(asked, AnalysisFailed)
      case AnalysisResolved(response) =>
        var labelled := asked.(objects := ObjectsOf(response), scenes := ScenesOf(response), emotions := EmotionsOf(response));
        match SummaryOf(response)
        case Some(summary) => labelled.(analysis := Some(summary))
        case None => Notify(labelled, AnalysisFailed)
  }

  /** `generate`, with the outcome of its one `generatePoem` call. */
  function GenerateStep(p: PageState, outcome: PoemOutcome): PageState {
    if !Truthy(p.analysis) then Notify(p, NoAnalysis)
    else
      var asked := Ask(p, GeneratePoem(p.analysis.value, p.language));
      match outcome
      case PoemResolved(poem) => asked.(poem := Some(poem))
      case PoemRejected => Notify(asked, PoemFailed)
  }

  /** `downloadPoemCard`, given whether the card element is mounted and how its rasterisation ends. */
  function DownloadStep(p: PageState, cardMounted: bool, raster: RasterOutcome): PageState {
    if !Truthy(p.poem) || !Truthy(p.image) then Notify(p, NoPoem)
    else if !cardMounted then Notify(p, NoCard)
    else
      var asked := Ask(p, Rasterize(StyleOf(p)));
      match raster
      case RasterDone(dataUrl) => asked.(downloads := asked.downloads + [Download(DownloadFileName, dataUrl)])
      case RasterFailed => Notify(asked, DownloadFailed)
  }

  /** The part of the state only the customisation controls touch. */
  function Customisation(p: PageState): (Language, CardSize, string, int, string, string) {
    (p.language, p.cardSize, p.fontFamily, p.fontSize, p.textColor, p.backgroundColor)
  }

  /** A loaded file, a failed read or no file at all keeps the state valid. */
  lemma UploadKeepsValid(p: PageState, file: Option<FileRead>)
    requires ValidState(p)
    ensures ValidState(Upload(p, file))
  {
  }

  /** `analyze` keeps the state valid: a summary is only ever set for the uploaded image, and it is never empty. */
  lemma AnalyzeKeepsValid(p: PageState, outcome: AnalysisOutcome)
    requires ValidState(p)
    ensures ValidState(AnalyzeStep(p, outcome))
  {
  }

  /** `generate` keeps the state valid: a poem is only ever set past the analysis guard. */
  lemma GenerateKeepsValid(p: PageState, outcome: PoemOutcome)
    requires ValidState(p)
    ensures ValidState(GenerateStep(p, outcome))
  {
  }

  lemma DownloadKeepsValid(p: PageState, cardMounted: bool, raster: RasterOutcome)
    requires ValidState(p)
    ensures ValidState(DownloadStep(p, cardMounted, raster))
  {
  }

  /**
   * A loaded file becomes the image and clears the analysis, the poem and
   * the labels; nothing else changes.
   */
  lemma LoadedFileClearsResults(p: PageState, result: string)
    ensures var q := Upload(p, Some(Loaded(result)));
            && q.image == Some(result) && q.analysis.None? && q.poem.None?
            && q.objects == [] && q.scenes == [] && q.emotions == []
            && Customisation(q) == Customisation(p)
            && q.toasts == p.toasts && q.requests == p.requests && q.downloads == p.downloads
  {
  }

  /** A read that fails or is aborted raises its one notification and changes nothing else. */
  lemma FailedReadOnlyNotifies(p: PageState)
    ensures Upload(p, Some(ReadFailed)) == Notify(p, FileReadError)
    ensures Upload(p, Some(ReadAborted)) == Notify(p, FileReadAborted)
    ensures Upload(p, None) == p
  {
  }

  /**
   * A handler whose precondition fails raises exactly one notification and
   * changes nothing else: no remote call, no rasterisation, no state.
   */
  lemma GuardFailuresOnlyNotify(p: PageState, a: AnalysisOutcome, g: PoemOutcome, r: RasterOutcome, cardMounted: bool)
    ensures !Truthy(p.image) ==> AnalyzeStep(p, a) == Notify(p, NoImage)
    ensures !Truthy(p.analysis) ==> GenerateStep(p, g) == Notify(p, NoAnalysis)
    ensures !(Truthy(p.poem) && Truthy(p.image)) ==> DownloadStep(p, cardMounted, r) == Notify(p, NoPoem)
    ensures Truthy(p.poem) && Truthy(p.image) ==> DownloadStep(p, false, r) == Notify(p, NoCard)
  {
  }

  /**
   * Past its guard, `analyze` calls `analyzeImage` once with the image. A
   * rejection keeps everything but raises one notification. A resolved
   * call always sets the three lists; it sets the summary when every list
   * is there, and otherwise keeps the old one and raises one notification.
   */
  lemma AnalyzeOutcomes(p: PageState, outcome: AnalysisOutcome)
    requires Truthy(p.image)
    ensures var q := AnalyzeStep(p, outcome);
            && q.requests == p.requests + [AnalyzeImage(p.image.value)]
            && q.image == p.image && q.poem == p.poem && q.downloads == p.downloads
            && Customisation(q) == Customisation(p)
            && (outcome.AnalysisRejected? ==>
                  q.analysis == p.analysis && q.objects == p.objects && q.scenes == p.scenes
                  && q.emotions == p.emotions && q.toasts == p.toasts + [AnalysisFailed])
            && (outcome.AnalysisResolved? ==>
                  var response := outcome.response;
                  && q.objects == ObjectsOf(response) && q.scenes == ScenesOf(response) && q.emotions == EmotionsOf(response)
                  && (SummaryOf(response).Some? ==> q.analysis == SummaryOf(response) && q.toasts == p.toasts)
                  && (SummaryOf(response).None? ==> q.analysis == p.analysis && q.toasts == p.toasts + [AnalysisFailed]))
  {
  }

  /** A complete response sets the summary of its three lists, and the lists themselves. */
  lemma AnalyzeSuccess(p: PageState, objects: seq<string>, scenes: seq<string>, emotions: seq<string>)
    requires Truthy(p.image)
    ensures var q := AnalyzeStep(p, AnalysisResolved(Some(AnalysisResponse(Some(objects), Some(scenes), Some(emotions)))));
            && q.analysis == Some(ObjectsLabel + Join(objects, ", ") + ScenesLabel + Join(scenes, ", ")
                                  + EmotionsLabel + Join(emotions, ", "))
            && q.objects == objects && q.scenes == scenes && q.emotions == emotions
            && q.toasts == p.toasts
  {
    var response := Some(AnalysisResponse(Some(objects), Some(scenes), Some(emotions)));
    assert SummaryOf(response) == Some(AnalysisSummary(objects, scenes, emotions));
    AnalyzeOutcomes(p, AnalysisResolved(response));
  }

  /**
   * Past its guard, `generate` calls `generatePoem` once with the summary and
   * the language; the poem it returns replaces the old one, and a rejection
   * keeps the old poem and raises one notification.
   */
  lemma GenerateOutcomes(p: PageState, outcome: PoemOutcome)
    requires Truthy(p.analysis)
    ensures var q := GenerateStep(p, outcome);
            && q.requests == p.requests + [GeneratePoem(p.analysis.value, p.language)]
            && q.image == p.image && q.analysis == p.analysis && q.downloads == p.downloads
            && q.objects == p.objects && q.scenes == p.scenes && q.emotions == p.emotions
            && Customisation(q) == Customisation(p)
            && (outcome.PoemResolved? ==> q.poem == Some(outcome.poem) && q.toasts == p.toasts)
            && (outcome.PoemRejected? ==> q.poem == p.poem && q.toasts == p.toasts + [PoemFailed])
  {
  }

  /**
   * Past both guards, `downloadPoemCard` rasterises the card once, styled
   * with the current style fields; the picture is offered as
   * `imageverse_poem.png`, or a failure raises one notification. The page
   * state itself never changes.
   */
  lemma DownloadOutcomes(p: PageState, raster: RasterOutcome)
    requires Truthy(p.poem) && Truthy(p.image)
    ensures var q := DownloadStep(p, true, raster);
            && q.requests == p.requests + [Rasterize(CardStyle(p.fontFamily, "hsl(" + p.textColor + ")",
                                                                "hsl(" + p.backgroundColor + ")",
                                                                IntToDecimal(p.fontSize) + "px"))]
            && q.(toasts := p.toasts, requests := p.requests, downloads := p.downloads) == p
            && (raster.RasterDone? ==>
                  q.downloads == p.downloads + [Download("imageverse_poem.png", raster.dataUrl)] && q.toasts == p.toasts)
            && (raster.RasterFailed? ==> q.downloads == p.downloads && q.toasts == p.toasts + [DownloadFailed])
  {
  }

  /** Uploading raises at most one notification, makes no call and offers no download. */
  lemma UploadEffects(p: PageState, file: Option<FileRead>)
    ensures var q := Upload(p, file);
            p.toasts <= q.toasts && |q.toasts| <= |p.toasts| + 1
            && q.requests == p.requests && q.downloads == p.downloads
  {
  }

  /** `analyze` raises at most one notification and makes at most one call, appending to what was there. */
  lemma AnalyzeEffects(p: PageState, outcome: AnalysisOutcome)
    ensures var q := AnalyzeStep(p, outcome);
            p.toasts <= q.toasts && |q.toasts| <= |p.toasts| + 1
            && p.requests <= q.requests && |q.requests| <= |p.requests| + 1
  {
  }

  /** `generate` raises at most one notification and makes at most one call, appending to what was there. */
  lemma GenerateEffects(p: PageState, outcome: PoemOutcome)
    ensures var q := GenerateStep(p, outcome);
            p.toasts <= q.toasts && |q.toasts| <= |p.toasts| + 1
            && p.requests <= q.requests && |q.requests| <= |p.requests| + 1
  {
  }

  /**
   * `downloadPoemCard` raises at most one notification, makes at most one
   * call and offers at most one download, and never both a notification
   * and a download.
   */
  lemma DownloadEffects(p: PageState, cardMounted: bool, raster: RasterOutcome)
    ensures var q := DownloadStep(p, cardMounted, raster);
            p.toasts <= q.toasts && p.requests <= q.requests && p.downloads <= q.downloads
            && |q.requests| <= |p.requests| + 1
            && |q.toasts| + |q.downloads| == |p.toasts| + |p.downloads| + 1
  {
  }

  /**
   * The whole pipeline: a loaded image, a complete analysis and a poem lead
   * to exactly the two AI calls, with the summary passed on to the poem
   * call, and no notification.
   */
  lemma {:induction false} Pipeline(p: PageState, image: string, objects: seq<string>, scenes: seq<string>,
                                    emotions: seq<string>, poem: string)
    requires image != ""
    ensures var response := AnalysisResponse(Some(objects), Some(scenes), Some(emotions));
            var summary := AnalysisSummary(objects, scenes, emotions);
            var q := GenerateStep(AnalyzeStep(Upload(p, Some(Loaded(image))), AnalysisResolved(Some(response))),
                                  PoemResolved(poem));
            && q.image == Some(image) && q.analysis == Some(summary) && q.poem == Some(poem)
            && q.requests == p.requests + [AnalyzeImage(image), GeneratePoem(summary, p.language)]
            && q.toasts == p.toasts
  {
    var response := AnalysisResponse(Some(objects), Some(scenes), Some(emotions));
    var summary := AnalysisSummary(objects, scenes, emotions);
    var loaded := Upload(p, Some(Loaded(image)));
    LoadedFileClearsResults(p, image);
    var analysed := AnalyzeStep(loaded, AnalysisResolved(Some(response)));
    AnalyzeSuccess(loaded, objects, scenes, emotions);
    assert analysed.requests == p.requests + [AnalyzeImage(image)];
    assert Truthy(analysed.analysis) by {
      assert SummaryOf(Some(response)) == Some(summary);
    }
    GenerateOutcomes(analysed, PoemResolved(poem));
  }

  /**
   * The page component. Its `useState` values are held as one record, and
   * each setter call of the source replaces one component of it, in the
   * order the handler makes the calls.
   */
  class Home {
    var page: PageState

    ghost predicate Valid()
      reads this
    {
      ValidState(page)
    }

    constructor ()
      ensures Valid() && page == InitialState
    {
      page := InitialState;
      new;
      InitialStateValid();
    }

    /** `handleImageUpload` and the reader callback that fires for it. */
    method HandleImageUpload(file: Option<FileRead>)
      requires Valid()
      modifies this
      ensures Valid() && page == Upload(old(page), file)
    {
      UploadKeepsValid(page, file);
      if file.Some? {
        match file.value {
          case Loaded(result) =>
            page := page.(image := Some(result));
            page := page.(analysis := None);
            page := page.(poem := None);
            page := page.(objects := []);
            page := page.(scenes := []);
            page := page.(emotions := []);
          case ReadFailed =>
            page := Notify(page, FileReadError);
          case ReadAborted =>
            page := Notify(page, FileReadAborted);
        }
      }
    }

    /** `analyze`: the busy flag is raised for the call and lowered in `finally`. */
    method Analyze(outcome: AnalysisOutcome)
      requires Valid()
      modifies this
      ensures Valid() && page == AnalyzeStep(old(page), outcome)
    {
      AnalyzeKeepsValid(page, outcome);
      if !Truthy(page.image) {
        page := Notify(page, NoImage);
        return;
      }
      page := page.(loadingImage := true);
      page := Ask(page, AnalyzeImage(page.image.value));
      if outcome.AnalysisRejected? {
        page := Notify(page, AnalysisFailed);
      } else {
        var response := outcome.response;
        page := page.(objects := ObjectsOf(response));
        page := page.(scenes := ScenesOf(response));
        page := page.(emotions := EmotionsOf(response));
        var summary := SummaryOf(response);
        if summary.Some? {
          page := page.(analysis := summary);
        } else {
          page := Notify(page, AnalysisFailed);
        }
      }
      page := page.(loadingImage := false);
    }

    /** `generate`: the busy flag is raised for the call and lowered in `finally`. */
    method Generate(outcome: PoemOutcome)
      requires Valid()
      modifies this
      ensures Valid() && page == GenerateStep(old(page), outcome)
    {
      GenerateKeepsValid(page, outcome);
      if !Truthy(page.analysis) {
        page := Notify(page, NoAnalysis);
        return;
      }
      page := page.(loadingPoem := true);
      page := Ask(page, GeneratePoem(page.analysis.value, page.language));
      if outcome.PoemResolved? {
        page := page.(poem := Some(outcome.poem));
      } else {
        page := Notify(page, PoemFailed);
      }
      page := page.(loadingPoem := false);
    }

    /** `downloadPoemCard`: the busy flag is raised for the rasterisation and lowered in `finally`. */
    method DownloadPoemCard(cardMounted: bool, raster: RasterOutcome)
      requires Valid()
      modifies this
      ensures Valid() && page == DownloadStep(old(page), cardMounted, raster)
    {
      DownloadKeepsValid(page, cardMounted, raster);
      if !Truthy(page.poem) || !Truthy(page.image) {
        page := Notify(page, NoPoem);
        return;
      }
      if !cardMounted {
        page := Notify(page, NoCard);
        return;
      }
      page := page.(isDownloading := true);
      page := Ask(page, Rasterize(StyleOf(page)));
      if raster.RasterDone? {
        page := page.(downloads := page.downloads + [Download(DownloadFileName, raster.dataUrl)]);
      } else {
        page := Notify(page, DownloadFailed);
      }
      page := page.(isDownloading := false);
    }

    /**
     * `applyRandomColors`, given the six `Math.random()` draws: text and
     * background become random `h s% l%` strings.
     */
    method ApplyRandomColors(u1: real, u2: real, u3: real, u4: real, u5: real, u6: real)
      requires Valid()
      requires 0.0 <= u1 < 1.0 && 0.0 <= u2 < 1.0 && 0.0 <= u3 < 1.0
      requires 0.0 <= u4 < 1.0 && 0.0 <= u5 < 1.0 && 0.0 <= u6 < 1.0
      modifies this
      ensures Valid()
      ensures page == old(page).(textColor := GenerateRandomColor(u1, u2, u3),
                                 backgroundColor := GenerateRandomColor(u4, u5, u6))
    {
      var text, background := RandomHsl(u1, u2, u3), RandomHsl(u4, u5, u6);
      assert InRange(text) && InRange(background);
      page := page.(textColor := GenerateRandomColor(u1, u2, u3));
      page := page.(backgroundColor := GenerateRandomColor(u4, u5, u6));
    }

    /** The language select. */
    method SetLanguage(l: Language)
      requires Valid()
      modifies this
      ensures Valid() && page == old(page).(language := l)
    {
      page := page.(language := l);
    }

    /** The card size select. */
    method SetCardSize(size: CardSize)
      requires Valid()
      modifies this
      ensures Valid() && page == old(page).(cardSize := size)
    {
      page := page.(cardSize := size);
    }

    /** The font family select. */
    method SetFontFamily(family: string)
      requires Valid()
      modifies this
      ensures Valid() && page == old(page).(fontFamily := family)
    {
      page := page.(fontFamily := family);
    }

    /** The font size slider, whose values run from 10 to 40. */
    method SetFontSize(size: int)
      requires Valid()
      requires 10 <= size <= 40
      modifies this
      ensures Valid() && page == old(page).(fontSize := size)
    {
      page := page.(fontSize := size);
    }

    /** The background colour picker: its hex value is stored as `H S% L%`. */
    method SetBackgroundColorFromPicker(hex: string)
      requires Valid()
      requires WellFormedHex(hex)
      modifies this
      ensures Valid() && page == old(page).(backgroundColor := HexToHsl(hex))
    {
      HexToHslIsStoredColour(hex);
      page := page.(backgroundColor := HexToHsl(hex));
    }

    /** The text colour picker: its hex value is stored as `H S% L%`. */
    method SetTextColorFromPicker(hex: string)
      requires Valid()
      requires WellFormedHex(hex)
      modifies this
      ensures Valid() && page == old(page).(textColor := HexToHsl(hex))
    {
      HexToHslIsStoredColour(hex);
      page := page.(textColor := HexToHsl(hex));
    }

    /** The value shown by the background colour picker: never the stored colour. */
    function BackgroundPickerValue(): (hex: string)
      reads this
      requires Valid()
      ensures hex == "#NaNNaNNaN"
    {
      StoredColourStringIsNaN(page.backgroundColor);
      HslToHex(page.backgroundColor)
    }

    /** The value shown by the text colour picker: never the stored colour. */
    function TextPickerValue(): (hex: string)
      reads this
      requires Valid()
      ensures hex == "#NaNNaNNaN"
    {
      StoredColourStringIsNaN(page.textColor);
      HslToHex(page.textColor)
    }
  }
}
