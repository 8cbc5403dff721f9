# formfoto editor core in Dafny

This project models the core of formfoto's photo editor. It covers these pieces:

- **The preset table** (`src/lib/exam-presets.ts`). It lists the exam and passport output contracts: pixel size, KB window and aspect ratio. Exam presets also carry a signature contract.
- **The editor** (`src/components/PhotoEditor.tsx`):
  - its state and the handlers that change it;
  - the React effects that keep the selection consistent;
  - `renderCanvas`, which draws the crop and the optional name/date strip;
  - `findQualityForKB`, the bounded bisection over JPEG quality that aims at a target size;
  - `generateCroppedImage`, which ties rendering and the search together and checks the KB window.
- **Pure helpers**: the date formatters, the download file name, and the resize applied before background removal.

The modules follow the source:

| Module | Models | Style |
|---|---|---|
| `Presets` | The table, as one `const` per preset | Constants |
| `Text` | The JavaScript string operations the editor uses: `trim`, `split`, `replace(/\s+/g, "_")`, number printing | Functions |
| `Dates` | The three date helpers | Functions |
| `BgResize` | The resize arithmetic | Functions |
| `QualitySearch` | The search | A method with its loop |
| `Render` | The drawing | A `Canvas` class whose methods append draw operations; `RenderCanvas` fills it |
| `Editor` | The component | An `Editor` class whose fields are its `useState` values |

How the search is modelled:

- The codec is a parameter: a total function from quality to the blob's byte count, or `None` when `toBlob` yields `null`.
- `Bisect` and `FindQualityForKB` are proved against `Trials`, a specification function that replays the bisection. The kept trial is the earliest trial with the smallest difference from the target.

How the effects are modelled:

- Each React effect is a function `Effect(r, s)`. `r` holds the values of the render the effect follows. `s` is the state the earlier effects of the same commit have produced, because React applies queued setters in order.
- `Pass` composes the effects in declaration order.
- The class methods `RunEffects` and `Settle` are proved against `Pass`.
- The clamp effect reads the rendered preset, not the one a sibling effect has just chosen. A change of category therefore needs a second pass before the target lies inside the new window. `SettlesWithinThreePasses` shows that two passes reach a consistent state that the effects leave unchanged.

Three properties of the code that the model makes explicit:

- **Convergence exit.** The search also breaks when `high - low < 0.02`, but that test cannot fire within five trials. The interval starts 0.9 wide and each measured trial that misses the target halves it, so the widths tested are at least 0.9/2^0, …, 0.9/2^4. The smallest is 0.05625. `EarlyStopOnlyOnExactHit` and `SearchStopsEarlyOnlyOnExactHit` prove that the search ends early only on an exact size match.
- **Errors.** Every failure of `generateCroppedImage` is reported as an error string. The model keeps the source's messages.
- **No supersession.** A second call to `generateCroppedImage` does not cancel or supersede one still running. The model runs each call to completion.

## Model

| member | source | states |
|---|---|---|
| Presets.FindById | src/components/PhotoEditor.tsx:255-256 | `EXAM_PRESETS.find` by id. It returns a preset of the table with that id, and `None` exactly when no preset has the id. |
| Presets.FilterByCategory | src/components/PhotoEditor.tsx:183 | `filteredPresets`. It keeps exactly the presets of the category and is never longer than the table. |
| Presets.FilterByCategoryKeepsOrder | src/components/PhotoEditor.tsx:183 | Filtering a concatenation is the concatenation of the filtered parts, so the kept presets stay in table order. |
| Presets.FilterByCategoryOne | src/components/PhotoEditor.tsx:183 | A single preset is kept exactly when it is of the category. |
| Presets.PhotoContractsWellFormed | src/lib/exam-presets.ts:20-125 | Every preset has a positive size and a non-empty KB window. Its aspect ratio is width over height. |
| Presets.ExamPresetsHaveSignature | src/lib/exam-presets.ts:20-102 | Every exam preset has all five signature fields, and its signature contract is well formed. |
| Presets.PassportPresetsHaveNoSignature | src/lib/exam-presets.ts:103-124 | The passport presets have no signature fields. |
| Presets.IdsDistinct | src/lib/exam-presets.ts:20-125 | No two presets share an id. |
| Presets.DateSupportOnlySscIbps | src/lib/exam-presets.ts:20-125 | Only the `ssc` and `ibps` presets support the date stamp. |
| Presets.FirstPresetIsExam | src/components/PhotoEditor.tsx:165 | The initial preset `EXAM_PRESETS[0]` exists and is an exam preset. |
| Presets.CategoryPopulated | src/components/PhotoEditor.tsx:291-292 | Each category has presets, so the category sync always finds a first preset. |
| Presets.FirstOfEachCategory | src/components/PhotoEditor.tsx:291 | The first exam preset is UPSC and the first passport preset is Generic Passport. |
| Presets.FilterSkipsPrefix | src/components/PhotoEditor.tsx:183 | Filtering ignores a leading run of presets of the other category. |
| Presets.FindByIdUnique | src/components/PhotoEditor.tsx:255 | Looking up the id of any preset of the table finds that preset. |
| Text.Trim | src/components/PhotoEditor.tsx:395-396 | `trim`. The result is no longer than the input and neither starts nor ends with whitespace. |
| Text.TrimStart | src/components/PhotoEditor.tsx:395-396 | `trimStart`. The result is a suffix of the input. What it drops is all whitespace, and the result does not start with whitespace. |
| Text.TrimEnd | src/components/PhotoEditor.tsx:395-396 | `trimEnd`. The result is a prefix of the input. What it drops is all whitespace, and the result does not end with whitespace. |
| Text.TrimSlice | src/components/PhotoEditor.tsx:395-396 | `trim` returns a slice of the input with only whitespace around it, and the slice neither starts nor ends with whitespace. |
| Text.TrimEmptyIff | src/components/PhotoEditor.tsx:397-398 | A trimmed string is empty exactly when the input is all whitespace, which is when `hasName` or `hasDate` is false. |
| Text.TrimIdempotent | src/components/PhotoEditor.tsx:395-396 | Trimming twice is trimming once. |
| Text.Split | src/components/PhotoEditor.tsx:30 | `split(sep)`. It returns at least one piece, no piece contains the separator, and joining the pieces gives the input back. |
| Text.SplitPrefix | src/components/PhotoEditor.tsx:30 | A prefix without the separator is glued to the first piece of the rest. |
| Text.SplitJoin | src/components/PhotoEditor.tsx:30-32 | Splitting pieces joined by a separator they do not contain gives the pieces back. |
| Text.NoWhitespaceConcat | src/components/PhotoEditor.tsx:863 | Two whitespace-free strings concatenate to a whitespace-free string. |
| Text.ReplaceWhitespaceRuns | src/components/PhotoEditor.tsx:863 | `replace(/\s+/g, "_")` leaves no whitespace and never lengthens the string. |
| Text.ReplaceWhitespaceRunsOfWords | src/components/PhotoEditor.tsx:863 | Any number of words separated by whitespace runs of any length become the words joined by underscores. |
| Text.CollapseRuns | src/components/PhotoEditor.tsx:863 | The replacement from a given point on leaves no whitespace and never lengthens the string. |
| Text.ReplaceWhitespaceRunsIdentity | src/components/PhotoEditor.tsx:863 | A string without whitespace is left as it is. |
| Text.CollapseKeepsWords | src/components/PhotoEditor.tsx:863 | Inside a run, or outside one, whitespace-free text is copied unchanged. |
| Text.CollapseSkipsRun | src/components/PhotoEditor.tsx:863 | The rest of a whitespace run adds nothing once its underscore is written. |
| Text.ReplaceWhitespaceRunAfterWord | src/components/PhotoEditor.tsx:863 | A word followed by a whitespace run becomes the word and one underscore. |
| Text.CollapseWordThenRun | src/components/PhotoEditor.tsx:863 | The same fact, from inside the recursion. |
| Text.NatToString | src/components/PhotoEditor.tsx:23-25 | `String(n)`. It gives digits only, exactly one digit below ten, and no leading zero from ten up. |
| Text.ParseNatToString | src/components/PhotoEditor.tsx:23-25 | Reading the printed digits gives the number back. |
| Text.ParseLeadingZero | src/components/PhotoEditor.tsx:23-24 | A leading zero does not change the value read. |
| Text.IntToStringReads | src/components/PhotoEditor.tsx:505 | An integer interpolated into a template reads back as that integer, with a minus sign for a negative one. |
| Dates.PadStart2 | src/components/PhotoEditor.tsx:23-24 | `padStart(2, "0")`. The result is at least two characters long, ends with the input, and everything before the input is zeros. |
| Dates.TwoDigitNumeral | src/components/PhotoEditor.tsx:23-24 | A day or month printed and padded is two digits that read back as the number. |
| Dates.FormatDisplayDate | src/components/PhotoEditor.tsx:22-27 | `formatDisplayDate` has the DD-MM-YYYY shape: two digits, a dash, two digits, a dash, then the year's digits. |
| Dates.FormatDisplayDateFields | src/components/PhotoEditor.tsx:22-27 | `formatDisplayDate` gives three dash-separated fields. Day and month are two digits and read back as the date's day and month. The year reads back as the year. |
| Dates.DigitsHaveNoDash | src/components/PhotoEditor.tsx:26 | Digit fields contain no dash, so they survive a split. |
| Dates.JoinThree | src/components/PhotoEditor.tsx:26 | The template `${a}-${b}-${c}` is the join of three fields. |
| Dates.SplitThree | src/components/PhotoEditor.tsx:30 | Splitting three dash-free fields joined by dashes gives them back. |
| Dates.DisplayToInputDate | src/components/PhotoEditor.tsx:29-33 | `displayToInputDate`. It returns "" when any of the first three fields is missing or empty, and the fields in reverse order otherwise. |
| Dates.InputToDisplayDate | src/components/PhotoEditor.tsx:35-40 | `inputToDisplayDate`. It returns "" for an empty input or any missing field, and the fields reversed otherwise. |
| Dates.ConvertersReverseFields | src/components/PhotoEditor.tsx:29-40 | On input with three non-empty fields, each converter reverses them. |
| Dates.DisplayRoundTrip | src/components/PhotoEditor.tsx:29-40 | A display date converted to input form and back is unchanged. |
| Dates.InputRoundTrip | src/components/PhotoEditor.tsx:29-40 | An input date converted to display form and back is unchanged. |
| Dates.FormattedDateRoundTrip | src/components/PhotoEditor.tsx:22-33 | Today's formatted date has three fields, and the date input receives its fields in year-month-day order. |
| BgResize.Round | src/components/PhotoEditor.tsx:98-99 | `Math.round`. The result is the integer within half of the argument, with halves rounded up. |
| BgResize.ResizeForBgRemoval | src/components/PhotoEditor.tsx:88-104 | The canvas sent to background removal has each side between 1 and 1024. An image whose longer side is at most 1024 keeps its size, with zero sides replaced by 1. A larger image has its longer side at exactly 1024, and each side is its rounded share of 1024, or 1 when that rounds to 0. |
| BgResize.ScaledSide | src/components/PhotoEditor.tsx:96-100 | Scaling by `1024 / maxSide` keeps a side within 1024, and the longer side becomes exactly 1024. |
| QualitySearch.SizeKB | src/components/PhotoEditor.tsx:452 | `Math.max(1, Math.round(size / 1024))`. It is at least 1, and it is the nearest number of kilobytes. |
| QualitySearch.Narrow | src/components/PhotoEditor.tsx:465-469 | A measured trial halves the interval and keeps it inside the old one. A failed encode leaves the interval unchanged. |
| QualitySearch.Keep | src/components/PhotoEditor.tsx:455-459 | The kept trial changes only to a successful trial, at that trial's quality. |
| QualitySearch.Step | src/components/PhotoEditor.tsx:449-469 | One trial counts one encode. Stopping leaves the interval as it was. |
| QualitySearch.Run | src/components/PhotoEditor.tsx:448-470 | `n` trials count at most `n` encodes. |
| QualitySearch.RunLast | src/components/PhotoEditor.tsx:448-470 | A search that has not stopped runs one more step. |
| QualitySearch.RunStays | src/components/PhotoEditor.tsx:461-463 | A stopped search stays stopped: the `break`. |
| QualitySearch.PrefixTrial | src/components/PhotoEditor.tsx:450-453 | A new trial does not change the outcome of the earlier ones. |
| QualitySearch.TrackFailedTrial | src/components/PhotoEditor.tsx:451 | A `null` blob keeps the earliest closest trial. |
| QualitySearch.TrackNoCloserTrial | src/components/PhotoEditor.tsx:455 | A trial that is not strictly closer keeps the earlier best. |
| QualitySearch.TrackCloserTrial | src/components/PhotoEditor.tsx:455-459 | A strictly closer trial becomes the earliest closest. |
| QualitySearch.KeepTracks | src/components/PhotoEditor.tsx:450-459 | After each trial, the kept quality and size are those of the earliest trial with the smallest difference. |
| QualitySearch.RunTracks | src/components/PhotoEditor.tsx:448-470 | After any number of steps, the kept trial is the earliest closest among the trials made. |
| QualitySearch.SearchKeepsEarliestClosest | src/components/PhotoEditor.tsx:448-470 | After the loop, the best quality and size are those of the earliest closest trial, or nothing is kept when no trial produced a blob. |
| QualitySearch.TrialsTail | src/components/PhotoEditor.tsx:461-469 | A later trial exists only when the earlier one did not stop, and it comes from the narrowed interval. |
| QualitySearch.TrialCount | src/components/PhotoEditor.tsx:448 | The loop makes between one and five trials. |
| QualitySearch.TrialsInside | src/components/PhotoEditor.tsx:449 | Every quality tried lies strictly inside the starting interval (0.1, 1). |
| QualitySearch.FailedTrialRepeats | src/components/PhotoEditor.tsx:451 | After a `null` blob the interval stays the same, so every later trial retries the same quality. |
| QualitySearch.BisectionSides | src/components/PhotoEditor.tsx:465-469 | After a measured trial that was not a hit, every later trial lies below it if the blob was too large and above it if too small. |
| QualitySearch.Pow2 | src/components/PhotoEditor.tsx:461 | A power of two, used to bound the interval width. It is at least 1. |
| QualitySearch.EarlyStopOnlyOnExactHit | src/components/PhotoEditor.tsx:461 | While the interval is wide enough, the only way to stop early is an exact size match. |
| QualitySearch.SearchStopsEarlyOnlyOnExactHit | src/components/PhotoEditor.tsx:448-463 | The search makes 1 to 5 trials. Fewer than 5 happen only when the last trial hit the target exactly, so `high - low < 0.02` never fires. |
| QualitySearch.ExactHitIsKept | src/components/PhotoEditor.tsx:455-463 | A trial that hits the target exactly is the kept one. |
| QualitySearch.EarliestClosestUnique | src/components/PhotoEditor.tsx:455 | At most one trial is the earliest closest. |
| QualitySearch.CloserThanEarlier | src/components/PhotoEditor.tsx:455 | The earliest closest trial is strictly closer than every earlier successful trial. |
| QualitySearch.Bisect | src/components/PhotoEditor.tsx:442-470 | The loop ends in the state of the five-step specification run. |
| QualitySearch.Trial | src/components/PhotoEditor.tsx:449-469 | One iteration of the loop body performs one specification step. |
| QualitySearch.SearchOutcomeUnique | src/components/PhotoEditor.tsx:472-481 | The search outcome is determined by the codec and the target. |
| QualitySearch.ReportedSizeIsFinalBlob | src/components/PhotoEditor.tsx:472-481 | The reported size is the size of the blob encoded again at the returned quality, or 0 when that blob is `null`. |
| QualitySearch.FindQualityForKB | src/components/PhotoEditor.tsx:438-482 | The earliest closest trial's quality and size, or the 0.1 fallback with its size (0 if its blob is `null` too). It encodes at most 5 + 1 times, and the quality lies in [0.1, 1]. |
| Render.Canvas.constructor | src/components/PhotoEditor.tsx:364 | A fresh canvas is 300 by 150, with no drawing and the 2D context's default styles. |
| Render.Canvas.DrawImageOp | src/components/PhotoEditor.tsx:379-389 | `drawImage` appends one operation and changes no style. |
| Render.Canvas.FillRectOp | src/components/PhotoEditor.tsx:401 | `fillRect` appends a rectangle in the current fill style. |
| Render.Canvas.FillTextOp | src/components/PhotoEditor.tsx:409 | `fillText` appends text with the current fill, font, alignment and baseline. |
| Render.ToNatural | src/components/PhotoEditor.tsx:371-377 | A displayed length times `natural / displayed`. The result times the displayed size equals the length times the natural size. |
| Render.CaptionOf | src/components/PhotoEditor.tsx:395-398 | The trimmed name and date, and today's formatted date, which is never empty. |
| Render.LineOps | src/components/PhotoEditor.tsx:406-423 | One or two lines of text. |
| Render.OverlayOps | src/components/PhotoEditor.tsx:391-423 | The strip followed by one or two lines of text. |
| Render.Plan | src/components/PhotoEditor.tsx:360-426 | `renderCanvas` returns a drawing exactly when there is an image, a crop of non-zero width and height, and a 2D context. The drawing has the active width and height. |
| Render.RenderCanvas | src/components/PhotoEditor.tsx:360-426 | The method returns `null` exactly when the plan does. Otherwise it returns a fresh canvas holding the planned drawing. |
| Render.DrawStamp | src/components/PhotoEditor.tsx:391-424 | Drawing the stamp appends the overlay operations for the caption and keeps the canvas size. |
| Render.CropScaledPerAxis | src/components/PhotoEditor.tsx:371-389 | The source rectangle is the crop scaled per axis from displayed to natural pixels, drawn onto the whole canvas. |
| Render.SpanInside | src/components/PhotoEditor.tsx:371-377 | A span inside the displayed image scales to a span inside the natural image. |
| Render.SourceInsideImage | src/components/PhotoEditor.tsx:371-389 | A crop inside the displayed image reads only pixels inside the natural image. |
| Render.NoStampNoStrip | src/components/PhotoEditor.tsx:391 | The drawing is the image alone exactly when the stamp is off: signature mode, toggle off, or a preset without date support. |
| Render.StripCoversBottom | src/components/PhotoEditor.tsx:392-401 | The strip is white, spans the canvas width, is 18% of the height, and ends at the bottom edge. |
| Render.StampIsOverlay | src/components/PhotoEditor.tsx:391-424 | With the stamp on, everything after the image is the overlay for the trimmed caption. |
| Render.StampTwoLines | src/components/PhotoEditor.tsx:406-413 | With a name and a date: the name in weight 600 at 40% of the strip, and the date in weight 500 at 78%. Each font has its floor. |
| Render.StampOneLine | src/components/PhotoEditor.tsx:414-423 | Otherwise one line at the middle of the strip. It shows the name, else the date, else today, and is never empty. |
| Render.StampInsideStrip | src/components/PhotoEditor.tsx:391-423 | Every line of text is placed inside the strip. |
| Editor.SignatureAvailable | src/components/PhotoEditor.tsx:199-207 | `signatureAvailable`: an exam preset whose five signature fields are all truthy. Its meaning over the table is stated by `SignatureAvailableIffExam`. |
| Editor.IsSignatureMode | src/components/PhotoEditor.tsx:208 | `isSignatureMode`: the signature tab is chosen and the signature is available. |
| Editor.ActiveSpec | src/components/PhotoEditor.tsx:209-215 | The active width, height, KB window and aspect ratio: the signature fields in signature mode, the photo fields otherwise. `ActiveSpecWellFormed` states that the result is well formed. |
| Editor.SignatureAvailableIffExam | src/components/PhotoEditor.tsx:199-207 | For a preset of the table, signature mode is available exactly when it is an exam preset. |
| Editor.ActiveSpecWellFormed | src/components/PhotoEditor.tsx:208-215 | The active contract, in either mode, has a positive size, a non-empty window and the matching aspect ratio. |
| Editor.Clamp | src/components/PhotoEditor.tsx:224 | `Math.min(Math.max(v, lo), hi)`. It lands in the window when the window is non-empty, keeps a value already inside, and takes the nearer bound otherwise. |
| Editor.DownloadName | src/components/PhotoEditor.tsx:216 | The `download` attribute (line 863) contains no whitespace and ends in `.jpg`. It ends in `_Signature.jpg` exactly in signature mode and in `_FormFoto.jpg` exactly otherwise. |
| Editor.DownloadNameOfWords | src/components/PhotoEditor.tsx:863 | A name made of words and whitespace runs, such as "UPSC Civil Services" or "JEE Main", downloads as the words joined by `_`, then `_FormFoto.jpg`, or `_Signature.jpg` in signature mode. |
| Editor.ClampTarget | src/components/PhotoEditor.tsx:223-231 | The clamp effect changes only the target and the slider value. |
| Editor.SignatureFallback | src/components/PhotoEditor.tsx:280-288 | Either nothing changes, or the mode becomes photo and the output is cleared. |
| Editor.CategorySync | src/components/PhotoEditor.tsx:290-299 | Either nothing changes, or only the preset changes and the output is cleared. |
| Editor.PassportPhotoOnly | src/components/PhotoEditor.tsx:301-309 | Either nothing changes, or the mode becomes photo and the output is cleared. |
| Editor.DateOffOnPresetChange | src/components/PhotoEditor.tsx:311-313 | Only the date toggle changes, and it can only be turned off. |
| Editor.DateOffInSignatureMode | src/components/PhotoEditor.tsx:315-319 | Only the date toggle changes, and it is off after a signature-mode render. |
| Editor.RecenterCrop | src/components/PhotoEditor.tsx:321-326 | Only the crop and the completed crop change. |
| Editor.SelectionEffects | src/components/PhotoEditor.tsx:223-309 | The clamp, signature-fallback, category-sync and passport effects, in declaration order. Their combined result is stated by `SelectionEffectsSelect`, `SelectionEffectsClampTarget`, `SelectionEffectsChooseMode` and `SelectionEffectsChoosePreset`. |
| Editor.Pass | src/components/PhotoEditor.tsx:223-326 | One commit: the selection effects, then the two date effects, then the recentring. `LateEffectsFrame`, `FirstPassSelects` and `SettlesWithinThreePasses` state what it does. |
| Editor.FirstPassSelects | src/components/PhotoEditor.tsx:223-326 | After one commit the preset belongs to the category. Signature mode holds only where available and never for passports. The slider shows the target, and no date strip is left in signature mode. |
| Editor.LateEffectsFrame | src/components/PhotoEditor.tsx:311-326 | The last three effects touch only the crop, the completed crop and the date toggle, and never turn the toggle on. |
| Editor.SelectionEffectsSelect | src/components/PhotoEditor.tsx:223-309 | The first four effects leave a preset of the category, an allowed mode, and the slider on the target. |
| Editor.SelectionEffectsClampTarget | src/components/PhotoEditor.tsx:223-231 | The target is clamped to the rendered contract's window, not to that of a preset chosen in the same commit. |
| Editor.SelectionEffectsChooseMode | src/components/PhotoEditor.tsx:280-309 | Signature mode is dropped where the rendered preset has no signature contract, and for passports. |
| Editor.SelectionEffectsChoosePreset | src/components/PhotoEditor.tsx:290-299 | A preset of the other category is replaced by the first preset of the category. |
| Editor.CategorySyncSelects | src/components/PhotoEditor.tsx:290-299 | The category sync leaves a preset of the table in the category, or replaces it by the first one. Mode, date toggle and target are unchanged. |
| Editor.SecondPassClamps | src/components/PhotoEditor.tsx:223-231 | A second commit over a consistent selection keeps preset and mode and brings the target into the window. |
| Editor.ConsistentIsFixpoint | src/components/PhotoEditor.tsx:223-326 | When the state is consistent and the preset and mode did not change, the effects change nothing. |
| Editor.FixpointIsConsistent | src/components/PhotoEditor.tsx:223-326 | A state the effects leave unchanged is consistent. |
| Editor.SettlesWithinThreePasses | src/components/PhotoEditor.tsx:223-326 | Two commits reach a consistent state, and a third changes nothing. |
| Editor.PassportPageMounts | src/components/PhotoEditor.tsx:162-176 | On the passport page, the editor switches from UPSC to Generic Passport in photo mode. The target ends at that preset's minimum of 50 KB. |
| Editor.ExamPageMounts | src/components/PhotoEditor.tsx:162-181 | Elsewhere, the initial state is already consistent and the effects keep it. |
| Editor.SizeLabel | src/components/PhotoEditor.tsx:508 | The size label `≈N KB`: it starts with `≈` and ends in ` KB`. |
| Editor.SizeLabelReadsBack | src/components/PhotoEditor.tsx:508 | The number between `≈` and ` KB` reads back as the output size. |
| Editor.RangeMessage | src/components/PhotoEditor.tsx:502-506 | The range message's template: it starts with "Output is ~" and ends in " KB.". |
| Editor.RangeError | src/components/PhotoEditor.tsx:502-506 | The range message for a size and a window starts with "Output is ~" and ends in " KB.". |
| Editor.RangeErrorReadsBack | src/components/PhotoEditor.tsx:502-506 | The range message is its template filled with strings that read back as the size, `activeMinKB` and `activeMaxKB`. |
| Editor.StampOf | src/components/PhotoEditor.tsx:391-398 | The values `renderCanvas` reads from the state for the date strip: signature mode, the toggle, the preset's date support, the name and the date. |
| Editor.Delivered | src/components/PhotoEditor.tsx:496-511 | The end of `generateCroppedImage` after the search. It changes only the error, the size label and the link. `DeliveredOnlyInWindow` states when each is set. |
| Editor.DeliveredOnlyInWindow | src/components/PhotoEditor.tsx:499-515 | A download link and size label are offered exactly when a blob was produced inside the KB window. No error is shown then. Otherwise only the error changes. |
| Editor.Editor.constructor | src/components/PhotoEditor.tsx:162-181 | The initial values: the page's category, the first preset, photo mode, today's date, the first preset's minimum as the target, and an em dash as the estimate. |
| Editor.Editor.ClearOutput | src/components/PhotoEditor.tsx:258-261 | Crop, completed crop, link and error are cleared, and nothing else changes. |
| Editor.Editor.DropFile | src/components/PhotoEditor.tsx:238-244 | The image source is replaced and the output cleared. |
| Editor.Editor.HandleExamChange | src/components/PhotoEditor.tsx:254-262 | An unknown id changes nothing. Otherwise the preset with that id is selected and the output cleared. |
| Editor.Editor.HandleModeChange | src/components/PhotoEditor.tsx:264-272 | The same mode, or signature mode where unavailable, changes nothing. Otherwise the mode switches and the output is cleared. |
| Editor.Editor.SelectCategory | src/components/PhotoEditor.tsx:561 | A category button sets the category only (line 579 likewise). |
| Editor.Editor.ToggleShowDate | src/components/PhotoEditor.tsx:699-710 | The toggle is rendered only outside signature mode and for a preset with date support. It flips the date strip only. |
| Editor.Editor.TypeName | src/components/PhotoEditor.tsx:724-735 | The name field is rendered only under the same condition and with the strip on. It sets the name only. |
| Editor.Editor.PickDate | src/components/PhotoEditor.tsx:724-751 | The date input is rendered under the same condition as the name field. It stores its value in display form, or "" when incomplete. |
| Editor.Editor.MoveSlider | src/components/PhotoEditor.tsx:846-851 | The slider is enabled only once a crop is completed. Its rounded value becomes both the label and the target. |
| Editor.Editor.ChangeCrop | src/components/PhotoEditor.tsx:783 | The dragged crop is stored. |
| Editor.Editor.CompleteCrop | src/components/PhotoEditor.tsx:784 | The completed crop is stored. |
| Editor.Editor.ImageLoaded | src/components/PhotoEditor.tsx:328-332 | The image is kept and the crop is centred at the active aspect ratio. |
| Editor.Editor.BackgroundRemoved | src/components/PhotoEditor.tsx:334-358 | Without an image nothing changes. On success the new image replaces the old and the crop and link are cleared. On failure only the error is set. |
| Editor.Editor.ClampTargetEffect | src/components/PhotoEditor.tsx:223-231 | The effect method does what `ClampTarget` specifies. |
| Editor.Editor.SignatureFallbackEffect | src/components/PhotoEditor.tsx:280-288 | The effect method does what `SignatureFallback` specifies. |
| Editor.Editor.CategorySyncEffect | src/components/PhotoEditor.tsx:290-299 | The effect method does what `CategorySync` specifies. |
| Editor.Editor.PassportPhotoOnlyEffect | src/components/PhotoEditor.tsx:301-309 | The effect method does what `PassportPhotoOnly` specifies. |
| Editor.Editor.DateEffects | src/components/PhotoEditor.tsx:311-319 | The two date effects, in order. |
| Editor.Editor.RecenterCropEffect | src/components/PhotoEditor.tsx:321-326 | The effect method does what `RecenterCrop` specifies. |
| Editor.Editor.RunEffects | src/components/PhotoEditor.tsx:223-326 | One commit's effects take the state to `Pass` of it. |
| Editor.Editor.Settle | src/components/PhotoEditor.tsx:223-326 | Commits until the state is consistent and the effects change nothing more. |
| Editor.Editor.GenerateCroppedImage | src/components/PhotoEditor.tsx:484-518 | Without an image or crop nothing changes. A failed render shows "Unable to prepare preview.". Otherwise the search result is delivered. |
| Editor.Editor.Export | src/components/PhotoEditor.tsx:496-515 | After the search: a `null` blob shows "Unable to generate image blob.". A size outside the window shows the range message. Otherwise the label is `≈N KB` and the link is set. |

## Left out

- The JSX layout, the dropdown and its outside-click listener, the `processing`, `isRemovingBg` and `removeBgStage` flags, and `alert`: user interface only.
- The dropzone and `FileReader`: `DropFile` takes the data URL the reader produces.
- `URL.createObjectURL` and `revokeObjectURL`: `GenerateCroppedImage` takes the URL as a parameter.
- `removeBackground` and `compositeTransparentOnWhite` are foreign calls that are not part of this model. `BackgroundRemoved` takes their result, with `None` for any failure.
- `centerAspectCrop` and the react-image-crop library are not part of this model. The centring function is a parameter.
- `loadImageElement` and `canvasToBlob`: browser I/O. `ResizeForBgRemoval` models only the size arithmetic.
- The JPEG encoder is a parameter (`Codec`). Sizes are byte counts, and nothing of the image data is modelled.
- `new Date()`: today's date is a parameter.
- The debounced estimate effect (lines 520-552): a timer-driven copy of the same search. Its `cancelled` flag and the cleanup that sets it and clears the timeout are left out with it.
- The `downloadUrl` cleanup effect (lines 274-278): URL revocation only.
- The `aspectDisplay` label and the open-graph image.
- Effect dependency arrays:
  - The clamp, signature-fallback, category-sync, passport and signature-date effects are guarded by their own conditions, so the model runs them on every commit. With the source's dependency arrays they run only when a dependency changed, and they then do nothing when their guard is false.
  - The preset-change and recentring effects compare with the previous render.
- Concurrency: `generateCroppedImage` is asynchronous, and overlapping calls are not modelled.
- Numbers are exact rationals, not IEEE doubles.
- `Render.ToNatural`: the source divides by the displayed image size without a guard. The model requires a non-zero displayed size (`Displayed`), where the browser would compute Infinity or NaN.
- `Render.Plan`: requires `Displayed` of the image for the same reason, since it scales the crop with `ToNatural`.
- `Render.RenderCanvas`: requires `Displayed` of the image for the same reason.
- `Editor.Editor.GenerateCroppedImage`: requires `Displayed` of the stored image for the same reason.
- `Editor.Editor.GenerateCroppedImage`: the guard against signature mode without signature fields cannot fire, because `isSignatureMode` already includes `signatureAvailable`. The model asserts the branch is dead instead of modelling its message.
- `Editor.Editor.GenerateCroppedImage`: the catch-all fallback message "Failed to process image." is not modelled, because every thrown error carries a non-empty message.
