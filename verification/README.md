# ImageVerse page, modelled in Dafny

ImageVerse is a Next.js page: the user uploads an image, asks an AI flow to
analyse it (objects, scenes, emotions), asks a second flow for a poem in
English or Chinese, styles a poem card (size, font, font size, text and
background colour) and downloads the card as a PNG. This project models the
page component `Home` of `app/page.tsx` and its two colour utilities.

- `Options`: optional values (`null`/`undefined`).
- `JsText`: the string primitives the page relies on. These are
  `split` on one character, `join`, and the decimal and hexadecimal renderings
  of integers (`${n}`, `n.toString(16)`), with their round trips.
- `JsNumber`: JavaScript numbers as exact rationals plus NaN. It covers
  NaN-propagating arithmetic, comparisons that are false on NaN,
  `Math.round`, and `Number(token)` for plain numerals and for tokens that
  force NaN.
- `Colour`: `hexToHsl`, `hslToHex` and `generateRandomColor`.
- `Page`: the page state (`PageState`, every `useState` value plus the
  notifications raised, the calls made and the downloads offered). It has one
  step function per handler and the class `Home`, whose methods perform the
  handlers one setter call at a time and are proved to end in the state the
  step function gives.

The remote calls (`analyzeImage`, `generatePoem`, the rasterisation of the
card), the outcome of the file read, whether the card element is mounted and
the values of `Math.random()` are parameters of the handler that waits for
them. Each handler runs to completion before the next one starts.

The model makes one behaviour of the page explicit. The colours are stored
as `H S% L%` strings, which is what `hexToHsl` and `generateRandomColor`
produce. `hslToHex`, however, converts each space-separated token with
`Number`, and `Number("50%")` is NaN. Every colour the page can hold
therefore gives `#NaNNaNNaN` to the colour inputs. The whole round trip
hex → HSL → hex gives it too (`Colour.StoredColourStringIsNaN`,
`Colour.HexToHslToHexIsNaN`, `Page.Home.BackgroundPickerValue`). Plain
numbers such as `0 0 50` do convert, to `#808080`
(`Colour.HslToHexOfPlainGrey`).

## Model

| member | source | states |
|---|---|---|
| `JsText.NatToDecimal` | app/page.tsx:476 | `${n}` is a non-empty string of decimal digits, with a leading zero only for 0 |
| `JsText.NatToHex` | app/page.tsx:429 | `n.toString(16)` is non-empty lower-case hex; one digit exactly when n < 16, at most two below 256 |
| `JsText.DecimalRoundTrip` | app/page.tsx:476 | reading back the decimal rendering of n gives n |
| `JsText.HexRoundTrip` | app/page.tsx:429 | reading back the hexadecimal rendering of n gives n |
| `JsText.HexValueLeadingZero` | app/page.tsx:430 | the `'0' +` padding of `toHex` does not change the value of the digits |
| `JsText.Split` | app/page.tsx:402 | `split(' ')` yields at least one piece and no piece holds the separator |
| `JsText.JoinSplit` | app/page.tsx:402 | joining the pieces of a split with the separator gives the string back |
| `JsText.SplitWithoutSeparator` | app/page.tsx:402 | a string without the separator splits into itself alone |
| `JsText.SplitAtSeparator` | app/page.tsx:402 | a separator-free prefix and a separator split off as the first piece |
| `JsText.JoinPair` | app/page.tsx:94 | two labels join around exactly one `, ` |
| `JsNumber.Round` | app/page.tsx:429 | `Math.round(x)` is within half of x, halves going up |
| `JsNumber.RoundWithin` | app/page.tsx:476 | rounding a value between two integers stays between them |
| `JsNumber.ToNumber` | app/page.tsx:402 | `Number(t)` is NaN exactly when the token holds a character no numeral has; otherwise a non-negative integer |
| `JsNumber.NumberOfDecimal` | app/page.tsx:402 | `Number` of a decimal rendering gives the number back |
| `JsNumber.NumberOfPercent` | app/page.tsx:402 | `Number` of any token ending in `%` is NaN |
| `Colour.Max3` | app/page.tsx:455 | `Math.max(r, g, b)` is one of the three and at least each of them |
| `Colour.Min3` | app/page.tsx:456 | `Math.min(r, g, b)` is one of the three and at most each of them |
| `Colour.HueSectorWithin` | app/page.tsx:462-469 | the `switch (max)` gives a hue between 0 and 6 sixths of a turn for every chromatic colour |
| `Colour.ChromaticHslInRange` | app/page.tsx:461-476 | a colour whose largest and smallest shares differ gets a rounded hue in [0, 360] and saturation and lightness in [0, 100] |
| `Colour.RgbToHslInRange` | app/page.tsx:451-476 | every colour gives a rounded hue in [0, 360] and saturation and lightness in [0, 100] |
| `Colour.HexToHslIsStoredColour` | app/page.tsx:437-477 | on strings whose characters each fit one UTF-16 unit, `hexToHsl` always returns `h s% l%` printed from an in-range triple, white for the empty string |
| `Colour.ShortHexDoublesDigits` | app/page.tsx:441-448 | `#rgb` reads exactly as `#rrggbb` |
| `Colour.OtherLengthIsBlack` | app/page.tsx:440-449 | a non-empty string of any length other than 4 or 7, counted in UTF-16 units with every character one unit, gives black, `0 0% 0%` |
| `Colour.GreyHasNoHue` | app/page.tsx:457-460 | equal bytes have hue and saturation 0 and the byte's rounded share of 100 as lightness |
| `Colour.HexToHslOfEmpty` | app/page.tsx:438 | the empty string is white, `0 0% 100%` |
| `Colour.HexToHslOfMidGrey` | app/page.tsx:437-477 | `#808080` is `0 0% 50%` |
| `Colour.HueOfNearRed` | app/page.tsx:451-476 | red with a touch of blue has a hue just under 360, which rounds to 360 rather than 0 |
| `Colour.HexToHslOfNearRed` | app/page.tsx:437-477 | `#ff0001` is `360 100% 50%` |
| `Colour.ToHexOfShare` | app/page.tsx:428-431 | a share in [0, 1] prints as two lower-case digits whose value is the share times 255, rounded |
| `Colour.PaddedByte` | app/page.tsx:429-430 | a byte printed in hex and padded is two lower-case digits whose value is the byte |
| `Colour.HexOfPairs` | app/page.tsx:433 | `#` and three digit pairs form a hex colour whose bytes are the pairs |
| `Colour.HueRampWithin` | app/page.tsx:415-418 | the ramp of `hue2rgb` between two shares stays between 0 and 1 |
| `Colour.HueToRgbWithin` | app/page.tsx:412-419 | `hue2rgb` of shares, at any point from -1 on, is a share in [0, 1] |
| `Colour.UpperShareValue` | app/page.tsx:421 | `q` never lies below the lightness: it raises the lightness towards 1 by the saturation's share of the distance to the nearer end (to 0 below one half, to 1 from one half on) |
| `Colour.SharesWithin` | app/page.tsx:421-422 | `q` and `p` are shares in [0, 1] when lightness and saturation are |
| `Colour.GreyBranch` | app/page.tsx:409-410 | saturation 0 puts the lightness share in all three channels, whatever the hue, NaN included |
| `Colour.ChromaticChannelsWithin` | app/page.tsx:421-425 | the `hue2rgb` branch gives three shares in [0, 1] for a non-negative hue and shares as saturation and lightness |
| `Colour.HslChannelsWithin` | app/page.tsx:403-426 | non-negative hue and percentages up to 100 give three channel shares in [0, 1] |
| `Colour.ChannelsToHexOfShares` | app/page.tsx:428-433 | three shares give `#` and six lower-case hex digits, each pair the rounded scaled share |
| `Colour.PlainHslToHex` | app/page.tsx:403-433 | for in-range numbers, `hslToHex` produces a hex colour whose bytes are the rounded channels, grey when saturation is 0 |
| `Colour.HslToHexOfPlainNumbers` | app/page.tsx:400-405 | tokens that are plain numerals are converted to their decimal values |
| `Colour.PlainTokensGiveHexColour` | app/page.tsx:400-433 | plain hue, saturation and lightness tokens with percentages up to 100 give a well-formed `#rrggbb` |
| `Colour.HslToHexOfEmpty` | app/page.tsx:401 | the empty string is white, `#ffffff` |
| `Colour.HueToRgbOfNaN` | app/page.tsx:412-419 | `hue2rgb` with NaN bounds is NaN at every point |
| `Colour.ChannelsOfNaN` | app/page.tsx:403-426 | a NaN saturation or lightness makes all three channels NaN |
| `Colour.FiniteSharesGiveFiniteChannels` | app/page.tsx:403-426 | conversely, a finite saturation and lightness give three finite channels for every hue, NaN included |
| `Colour.HueToRgbFinite` | app/page.tsx:412-419 | `hue2rgb` of finite `p` and `q` is finite for every `t`, and a NaN `t` fails every comparison and returns `p` |
| `Colour.NaNHueGivesLowerShare` | app/page.tsx:409-426 | a NaN hue with a non-zero saturation puts `p` in all three channels |
| `Colour.HslToHexOfNaN` | app/page.tsx:402-433 | a missing or non-numeric saturation or lightness gives `#NaNNaNNaN` |
| `Colour.HexOfNaNChannels` | app/page.tsx:428-433 | three NaN channels print `#NaNNaNNaN` |
| `Colour.SplitStoredColour` | app/page.tsx:402 | a stored colour splits into the hue and the two `%` tokens |
| `Colour.StoredColourIsNaN` | app/page.tsx:400-433 | `hslToHex` of any stored `h s% l%` with a non-negative hue is `#NaNNaNNaN` |
| `Colour.StoredColourStringIsNaN` | app/page.tsx:400-433 | `hslToHex` of every colour string the page can hold is `#NaNNaNNaN` |
| `Colour.HexToHslToHexIsNaN` | app/page.tsx:400-477 | converting a picker value to HSL and back never gives a colour, only `#NaNNaNNaN` |
| `Colour.HslToHexOfPlainGrey` | app/page.tsx:400-433 | `0 0 50` is `#808080` |
| `Colour.HslToHexOfStoredGrey` | app/page.tsx:400-433 | the same grey as stored, `0 0% 50%`, is `#NaNNaNNaN` |
| `Colour.RandomHsl` | app/page.tsx:188-193 | a random colour has hue in [0, 359] and saturation and lightness in [0, 99] |
| `Colour.RandomHslReachesEveryTriple` | app/page.tsx:188-193 | every such triple is drawn for some values of `Math.random()` |
| `Page.SummaryOf` | app/page.tsx:89-95 | a resolved analysis yields a non-empty summary starting `Objects: `, and no summary exactly when a list of a non-null response is missing |
| `Page.SummaryOfSingleLabels` | app/page.tsx:94 | one label per list reads `Objects: o. Scenes: s. Emotions: e` |
| `Page.SummaryOfTwoObjects` | app/page.tsx:94 | several labels are separated by `, ` |
| `Page.UndefinedSummaryReadsAsLabels` | app/page.tsx:94 | a null response reads as if each list held the single label `undefined` |
| `Page.FontSizeReadsBack` | app/page.tsx:162 | the card font size is two digits and `px`, and the digits read back as the slider value |
| `Page.InitialStateValid` | app/page.tsx:19-37 | the first render holds valid colours, a slider font size, no analysis or poem, and nothing busy |
| `Page.UploadKeepsValid` | app/page.tsx:39-76 | an upload keeps the page valid |
| `Page.AnalyzeKeepsValid` | app/page.tsx:78-106 | `analyze` keeps the page valid: a summary is non-empty and only set for an uploaded image, and the busy flag is lowered |
| `Page.GenerateKeepsValid` | app/page.tsx:108-131 | `generate` keeps the page valid: a poem only exists with an analysis, and the busy flag is lowered |
| `Page.DownloadKeepsValid` | app/page.tsx:134-185 | `downloadPoemCard` keeps the page valid and lowers its busy flag |
| `Page.LoadedFileClearsResults` | app/page.tsx:43-50 | a loaded file becomes the image and clears analysis, poem and labels; nothing else changes |
| `Page.FailedReadOnlyNotifies` | app/page.tsx:40-73 | a failed or aborted read only raises its notification; no file changes nothing |
| `Page.GuardFailuresOnlyNotify` | app/page.tsx:79-151 | a handler whose guard fails raises exactly its one notification and changes nothing else |
| `Page.AnalyzeOutcomes` | app/page.tsx:87-105 | past its guard `analyze` calls `analyzeImage` once with the image; a rejection keeps the labels and summary and notifies; a resolution sets the lists, then the summary or a notification |
| `Page.AnalyzeSuccess` | app/page.tsx:89-95 | a complete response sets the three lists and the joined summary, and raises nothing |
| `Page.GenerateOutcomes` | app/page.tsx:117-130 | past its guard `generate` calls `generatePoem` once with the summary and language; the poem replaces the old one, or a rejection notifies |
| `Page.DownloadOutcomes` | app/page.tsx:152-184 | past both guards the card is rasterised once with the current style; the image is offered as `imageverse_poem.png`, or a failure notifies; the page values do not change |
| `Page.UploadEffects` | app/page.tsx:39-76 | an upload raises at most one notification and makes no call or download |
| `Page.AnalyzeEffects` | app/page.tsx:78-106 | `analyze` appends at most one notification and at most one call |
| `Page.GenerateEffects` | app/page.tsx:108-131 | `generate` appends at most one notification and at most one call |
| `Page.DownloadEffects` | app/page.tsx:134-185 | `downloadPoemCard` appends at most one call, and exactly one of a notification or a download |
| `Page.Pipeline` | app/page.tsx:39-131 | upload, complete analysis and poem make exactly the two AI calls, pass the summary on, and raise nothing |
| `Page.Home.constructor` | app/page.tsx:19-37 | the page starts in the initial state, which is valid |
| `Page.Home.HandleImageUpload` | app/page.tsx:39-76 | the setter calls of the reader callbacks end in the upload step and keep the page valid |
| `Page.Home.Analyze` | app/page.tsx:78-106 | the setter calls of `analyze`, with the flag raised and lowered, end in the analyse step |
| `Page.Home.Generate` | app/page.tsx:108-131 | the setter calls of `generate` end in the generate step |
| `Page.Home.DownloadPoemCard` | app/page.tsx:134-185 | the download handler ends in the download step |
| `Page.Home.ApplyRandomColors` | app/page.tsx:196-199 | both colours become random stored colours; nothing else changes |
| `Page.Home.SetLanguage` | app/page.tsx:249 | only the language changes |
| `Page.Home.SetCardSize` | app/page.tsx:284 | only the card size changes |
| `Page.Home.SetFontFamily` | app/page.tsx:299 | only the font family changes |
| `Page.Home.SetFontSize` | app/page.tsx:313-318 | only the font size changes, to a slider value |
| `Page.Home.SetBackgroundColorFromPicker` | app/page.tsx:331-335 | only the background changes, to `hexToHsl` of the picked colour, which is a stored colour |
| `Page.Home.SetTextColorFromPicker` | app/page.tsx:344-348 | only the text colour changes, to `hexToHsl` of the picked colour, which is a stored colour |
| `Page.Home.BackgroundPickerValue` | app/page.tsx:330 | the background picker is always given `#NaNNaNNaN` |
| `Page.Home.TextPickerValue` | app/page.tsx:343 | the text picker is always given `#NaNNaNNaN` |

## Left out

- Floating point: numbers are exact rationals. IEEE rounding of `/ 255`, `/ 360` and `* 255`, and the ties where it could move `Math.round` by one, are not modelled.
- `JsNumber.ToNumber` only covers tokens of decimal digits and tokens holding a character no numeric literal has, such as `%`. Signs, decimal points, exponents, `0x` numerals, `Infinity` and surrounding white space are outside the model. Every string the page itself produces is covered.
- `Colour.HslToHex` requires its first three tokens to be of the kind `JsNumber.ToNumber` covers. It is weaker than the source, which accepts any string.
- `Colour.HexToHsl` requires a 4- or 7-character string to hold hex digits after its first character. `parseInt` of other characters is not modelled. A colour input only ever yields `#rrggbb`.
- `Colour.HexToHsl`, `Colour.OtherLengthIsBlack` and `Colour.HexToHslIsStoredColour` only cover strings whose characters all lie below U+10000. JavaScript's `hex.length` and `hex[i]` count UTF-16 code units, Dafny's count characters, and the two agree only on such strings. For a string such as two emoji (four units) the page reads surrogate halves as digits and prints `0 NaN% NaN%`; that case is not modelled. A colour input only yields ASCII `#rrggbb`.
- `Page.Home.SetFontSize` requires a value from 10 to 40, the slider's range. The setter itself accepts any number.
- The `try`/`catch` around the setter calls in the `onload` callback: setters do not throw, so the catch branch is not modelled.
- `console.error` logging, the toast rendering, the JSX layout, the disabled state of the buttons and the card-size CSS classes.
- `html2canvas` and the DOM: the card's styling writes and the rasterisation are one `Rasterize` request carrying the style, plus its outcome. The link element is one `Download` record.
- Whether the card element is mounted is a parameter of `Page.Home.DownloadPoemCard`. It is not derived from the rendering condition `poem && image`.
- Interleaving: the handlers are `async`, but each is modelled as running to completion with its remote outcome given. A second handler starting while a call is pending is not modelled. This is why the busy flags are false between handlers.
- The `useState` values are held in one record field of `Home`. Each setter call replaces one component of that record, in the order the handler makes the calls. React's batching of updates into renders is not modelled.
- The AI flows (`src/ai/flows/analyze-image.ts`, `src/ai/flows/generate-poem.ts`) and `next.config.ts` are not part of this model. Their results are the outcome parameters of the handlers.
- `Math.random()` is not modelled: its six draws are parameters of `Page.Home.ApplyRandomColors`.
