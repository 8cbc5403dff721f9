/** The editor of src/components/PhotoEditor.tsx: its state, the handlers that change it, the
    effects React runs after each render, and `generateCroppedImage`. */
module Editor {
  import opened Wrappers
  import opened Presets
  import opened Text
  import opened Dates
  import opened BgResize
  import opened QualitySearch
  import opened Render

  datatype Mode = Photo | Signature

  /** The `mode` prop of the page that mounts the editor; absent on the home page. */
  datatype PageMode = ExamPage | PassportPage | ManualPage

  /** A crop in percent of the image, as react-image-crop keeps it while the user drags. */
  datatype PercentCrop = PercentCrop(x: real, y: real, width: real, height: real)

  /** `centerAspectCrop(naturalWidth, naturalHeight, aspect)`, whose library internals are not
      part of this model. */
  type CenterCrop = (real, real, real) -> PercentCrop

  /** The output contract in force: pixel size, KB window and aspect ratio. */
  datatype Spec = Spec(width: int, height: int, minKB: int, maxKB: int, aspectRatio: real)

  const PREPARE_ERROR: string := "Unable to prepare preview."
  const BLOB_ERROR: string := "Unable to generate image blob."
  const BACKGROUND_ERROR: string := "Failed to remove background. Please try again."
  /** The placeholder of the size estimate, an em dash. */
  const NO_ESTIMATE: string := "\U{2014}"

  // ---------------------------------------------------------------------------------------------
  // What the editor derives from the selection

  /** `signatureAvailable`: an exam preset with all five signature fields truthy. */
  predicate SignatureAvailable(p: ExamPreset)
  {
    p.category == Exam && HasSignatureFields(p)
  }

  /** `isSignatureMode`: the signature tab is chosen and available. */
  predicate IsSignatureMode(p: ExamPreset, m: Mode)
  {
    m == Signature && SignatureAvailable(p)
  }

  /** `activeWidth`, `activeHeight`, `activeMinKB`, `activeMaxKB`, `activeAspectRatio`. */
  function ActiveSpec(p: ExamPreset, m: Mode): Spec
  {
    if IsSignatureMode(p, m) then
      Spec(p.sigWidth.value, p.sigHeight.value, p.sigMinKB.value, p.sigMaxKB.value, p.sigAspectRatio.value)
    else
      Spec(p.width, p.height, p.minKB, p.maxKB, p.aspectRatio)
  }

  predicate WellFormedSpec(s: Spec)
  {
    0 < s.width && 0 < s.height && 0 < s.minKB <= s.maxKB
    && s.aspectRatio == s.width as real / s.height as real
  }

  /** In the table, signature mode is available exactly for the exam presets. */
  lemma SignatureAvailableIffExam(p: ExamPreset)
    requires p in EXAM_PRESETS
    ensures SignatureAvailable(p) <==> p.category == Exam
  {
    ExamPresetsHaveSignature();
    PassportPresetsHaveNoSignature();
    var i :| 0 <= i < |EXAM_PRESETS| && EXAM_PRESETS[i] == p;
  }

  /** Whatever the preset and the tab, the active contract is well formed: positive size, a
      non-empty KB window, and the aspect ratio of that size. */
  lemma ActiveSpecWellFormed(p: ExamPreset, m: Mode)
    requires p in EXAM_PRESETS
    ensures WellFormedSpec(ActiveSpec(p, m))
  {
    PhotoContractsWellFormed();
    ExamPresetsHaveSignature();
    var i :| 0 <= i < |EXAM_PRESETS| && EXAM_PRESETS[i] == p;
  }

  /** `Math.min(Math.max(v, lo), hi)`. */
  function Clamp(v: int, lo: int, hi: int): (r: int)
    ensures lo <= hi ==> lo <= r <= hi
    ensures lo <= v <= hi ==> r == v
    ensures lo <= hi && v < lo ==> r == lo
    ensures hi < v ==> r == hi
    ensures hi < lo ==> r == hi
  {
    var atLeast := if v >= lo then v else lo;
    if atLeast <= hi then atLeast else hi
  }

  /** `s.endsWith(t)`. */
  predicate EndsWith(s: string, t: string)
  {
    |t| <= |s| && s[|s| - |t|..] == t
  }

  /** Whether `x + tail` ends in `t`, for `t` no longer than `tail`, depends on `tail` only. */
  lemma EndsWithTail(x: string, tail: string, t: string)
    requires |t| <= |tail|
    ensures EndsWith(x + tail, t) <==> EndsWith(tail, t)
  {
    assert (x + tail)[|x + tail| - |t|..] == tail[|tail| - |t|..];
  }

  /** A whitespace-free name followed by `_Signature.jpg` ends in that suffix and not the other. */
  lemma SignatureSuffix(name: string)
    requires NoWhitespace(name)
    ensures var r := name + "_Signature.jpg";
      NoWhitespace(r) && EndsWith(r, ".jpg") && EndsWith(r, "_Signature.jpg") && !EndsWith(r, "_FormFoto.jpg")
  {
    var tail := "_Signature.jpg";
    NoWhitespaceConcat(name, tail);
    EndsWithTail(name, tail, ".jpg");
    EndsWithTail(name, tail, "_Signature.jpg");
    EndsWithTail(name, tail, "_FormFoto.jpg");
    assert tail[1..] != "_FormFoto.jpg";
  }

  /** A whitespace-free name followed by `_FormFoto.jpg` ends in that suffix and not the other. */
  lemma FormFotoSuffix(name: string)
    requires NoWhitespace(name)
    ensures var r := name + "_FormFoto.jpg";
      NoWhitespace(r) && EndsWith(r, ".jpg") && EndsWith(r, "_FormFoto.jpg") && !EndsWith(r, "_Signature.jpg")
  {
    var tail := "_FormFoto.jpg";
    NoWhitespaceConcat(name, tail);
    EndsWithTail(name, tail, ".jpg");
    EndsWithTail(name, tail, "_FormFoto.jpg");
    var r := name + tail;
    assert |r| >= 14 ==> r[|r| - 14..][1] == r[|r| - 13] == tail[0] == '_';
  }

  /** The `download` attribute of the link: the preset name with whitespace runs turned into
      underscores, the suffix of the mode, and `.jpg`. */
  function DownloadName(p: ExamPreset, m: Mode): (r: string)
    ensures NoWhitespace(r)
    ensures EndsWith(r, ".jpg")
    ensures EndsWith(r, "_Signature.jpg") <==> IsSignatureMode(p, m)
    ensures EndsWith(r, "_FormFoto.jpg") <==> !IsSignatureMode(p, m)
  {
    var name := ReplaceWhitespaceRuns(p.name);
    if IsSignatureMode(p, m) then
      SignatureSuffix(name);
      name + "_Signature.jpg"
    else
      FormFotoSuffix(name);
      name + "_FormFoto.jpg"
  }

  /** A preset named by words and whitespace runs, as "UPSC Civil Services" and "JEE Main"
      are, downloads as those words joined by underscores, then the mode's suffix. */
  lemma DownloadNameOfWords(p: ExamPreset, m: Mode, ws: seq<string>, runs: seq<string>)
    requires WordsAndRuns(ws, runs) && p.name == Interleave(ws, runs)
    ensures IsSignatureMode(p, m) ==> DownloadName(p, m) == Join(ws, '_') + "_Signature.jpg"
    ensures !IsSignatureMode(p, m) ==> DownloadName(p, m) == Join(ws, '_') + "_FormFoto.jpg"
  {
    ReplaceWhitespaceRunsOfWords(ws, runs);
  }

  // ---------------------------------------------------------------------------------------------
  // The editor's state and the effects

  /** Every `useState` of the editor that the model keeps, and `imgRef.current` as `image`. */
  datatype EditorState = EditorState(
    category: Category,
    selectedExam: ExamPreset,
    imageSrc: Option<string>,
    crop: Option<PercentCrop>,
    completedCrop: Option<PixelCrop>,
    downloadUrl: Option<string>,
    error: Option<string>,
    showDate: bool,
    dateValue: string,
    nameOnPhoto: string,
    targetKb: int,
    displayTargetKb: int,
    estimatedFileSize: string,
    mode: Mode,
    image: Option<ImageElement>)

  function Active(s: EditorState): Spec
  {
    ActiveSpec(s.selectedExam, s.mode)
  }

  /** The four setters every change of preset or mode calls: crop, completed crop, download URL
      and error cleared. */
  function ClearedOutput(s: EditorState): EditorState
  {
    s.(crop := None, completedCrop := None, downloadUrl := None, error := None)
  }

  /** The state as the editor mounts: the category of the page, the first preset, photo mode,
      today's date in display form and the first preset's minimum as the target. */
  function Initial(pageMode: Option<PageMode>, today: CalendarDate): EditorState
    requires ValidDate(today)
  {
    EditorState(if pageMode == Some(PassportPage) then Passport else Exam, EXAM_PRESETS[0], None,
                None, None, None, None, false, FormatDisplayDate(today), "",
                EXAM_PRESETS[0].minKB, EXAM_PRESETS[0].minKB, NO_ESTIMATE, Photo, None)
  }

  // Each effect reads the values of the render it follows (`r`) and applies its setters to the
  // state the earlier effects of the same pass have produced (`s`).

  /** The target clamp: an out-of-window target is moved into the window, and the slider's value
      follows it. */
  function ClampTarget(r: EditorState, s: EditorState): (t: EditorState)
    ensures t == s.(targetKb := t.targetKb, displayTargetKb := t.displayTargetKb)
  {
    var spec := Active(r);
    var clamped := Clamp(r.targetKb, spec.minKB, spec.maxKB);
    if clamped != r.targetKb then s.(targetKb := clamped, displayTargetKb := clamped)
    else s.(displayTargetKb := Clamp(s.displayTargetKb, spec.minKB, spec.maxKB))
  }

  /** Signature mode without signature fields falls back to photo mode. */
  function SignatureFallback(r: EditorState, s: EditorState): (t: EditorState)
    ensures t == s || t == ClearedOutput(s.(mode := Photo))
  {
    if r.mode == Signature && !SignatureAvailable(r.selectedExam) then ClearedOutput(s.(mode := Photo)) else s
  }

  /** A preset of the other category is replaced by the first preset of the current category. */
  function CategorySync(r: EditorState, s: EditorState): (t: EditorState)
    ensures t == s || t == ClearedOutput(s.(selectedExam := t.selectedExam))
  {
    var presets := FilterByCategory(EXAM_PRESETS, r.category);
    if presets == [] || r.selectedExam.category == r.category then s
    else ClearedOutput(s.(selectedExam := presets[0]))
  }

  /** The passport category is photo only. */
  function PassportPhotoOnly(r: EditorState, s: EditorState): (t: EditorState)
    ensures t == s || t == ClearedOutput(s.(mode := Photo))
  {
    if r.category == Passport && r.mode != Photo then ClearedOutput(s.(mode := Photo)) else s
  }

  /** A new preset turns the date strip off (on mount too). */
  function DateOffOnPresetChange(prev: Option<EditorState>, r: EditorState, s: EditorState): (t: EditorState)
    ensures t == s.(showDate := t.showDate)
    ensures t.showDate ==> s.showDate
  {
    if prev.None? || prev.value.selectedExam != r.selectedExam then s.(showDate := false) else s
  }

  /** Signature mode turns the date strip off. */
  function DateOffInSignatureMode(r: EditorState, s: EditorState): (t: EditorState)
    ensures t == s.(showDate := t.showDate)
    ensures r.mode == Signature ==> !t.showDate
  {
    if r.mode == Signature then s.(showDate := false) else s
  }

  /** A new preset, mode or aspect ratio re-centres the crop on a loaded image and drops the
      completed crop. The image is a ref, not render state: its current value is read. */
  function RecenterCrop(prev: Option<EditorState>, r: EditorState, s: EditorState, center: CenterCrop): (t: EditorState)
    ensures t == s.(crop := t.crop, completedCrop := t.completedCrop)
  {
    var changed := prev.None? || prev.value.selectedExam != r.selectedExam || prev.value.mode != r.mode
                   || Active(prev.value).aspectRatio != Active(r).aspectRatio;
    if changed && s.image.Some? then
      s.(crop := Some(center(s.image.value.naturalWidth, s.image.value.naturalHeight, Active(r).aspectRatio)),
         completedCrop := None)
    else s
  }

  /** The first four effects of a commit: those that fix the target, the mode and the preset. */
  function SelectionEffects(r: EditorState): EditorState
  {
    var s := ClampTarget(r, r);
    var s := SignatureFallback(r, s);
    var s := CategorySync(r, s);
    PassportPhotoOnly(r, s)
  }

  /** The effects of one commit, in the order the component declares them. `prev` is the
      previous render (`None` on mount). */
  function Pass(prev: Option<EditorState>, r: EditorState, center: CenterCrop): EditorState
  {
    var s := SelectionEffects(r);
    var s := DateOffOnPresetChange(prev, r, s);
    var s := DateOffInSignatureMode(r, s);
    RecenterCrop(prev, r, s, center)
  }

  /** The selection the editor promises once the effects have settled: the preset belongs to
      the category, signature mode only where available and never for passports, the target
      inside the active KB window and shown on the slider, and no date strip for a signature. */
  predicate Consistent(s: EditorState)
  {
    && s.selectedExam in EXAM_PRESETS
    && s.selectedExam.category == s.category
    && (s.mode == Signature ==> SignatureAvailable(s.selectedExam))
    && (s.category == Passport ==> s.mode == Photo)
    && Active(s).minKB <= s.targetKb <= Active(s).maxKB
    && s.displayTargetKb == s.targetKb
    && (s.mode == Signature ==> !s.showDate)
  }

  /** Consistent apart from the target window: what the first pass establishes. */
  predicate SelectionConsistent(s: EditorState)
  {
    && s.selectedExam in EXAM_PRESETS
    && s.selectedExam.category == s.category
    && (s.mode == Signature ==> SignatureAvailable(s.selectedExam))
    && (s.category == Passport ==> s.mode == Photo)
    && s.displayTargetKb == s.targetKb
    && (s.mode == Signature ==> !s.showDate)
  }

  /** The first pass after any change puts the selection right: the preset matches the
      category, and the mode is allowed for it. */
  lemma FirstPassSelects(prev: Option<EditorState>, r: EditorState, center: CenterCrop)
    requires r.selectedExam in EXAM_PRESETS && r.displayTargetKb == r.targetKb
    ensures var s := Pass(prev, r, center);
      SelectionConsistent(s) && s.category == r.category
  {
    SelectionEffectsSelect(r);
    LateEffectsFrame(prev, r, center);
  }

  /** The effects after the first four touch only the crop, the completed crop and the date
      strip, and can only turn the strip off. */
  lemma LateEffectsFrame(prev: Option<EditorState>, r: EditorState, center: CenterCrop)
    ensures var e := SelectionEffects(r);
      var s := Pass(prev, r, center);
      && s.(crop := e.crop, completedCrop := e.completedCrop, showDate := e.showDate) == e
      && (s.showDate ==> e.showDate)
      && (r.mode == Signature ==> !s.showDate)
  {
    var s4 := SelectionEffects(r);
    var s5 := DateOffOnPresetChange(prev, r, s4);
    var s6 := DateOffInSignatureMode(r, s5);
    var s7 := RecenterCrop(prev, r, s6, center);
    assert s7.(crop := s4.crop, completedCrop := s4.completedCrop, showDate := s4.showDate) == s4;
  }

  /** The target, mode and preset effects leave a preset of the category, a mode allowed for it
      and the slider on the target. */
  lemma SelectionEffectsSelect(r: EditorState)
    requires r.selectedExam in EXAM_PRESETS && r.displayTargetKb == r.targetKb
    ensures var s := SelectionEffects(r);
      && s.selectedExam in EXAM_PRESETS && s.selectedExam.category == r.category
      && (s.mode == Signature ==> SignatureAvailable(s.selectedExam))
      && (r.category == Passport ==> s.mode == Photo)
      && s.displayTargetKb == s.targetKb && s.category == r.category
  {
    var s1 := ClampTarget(r, r);
    assert s1.displayTargetKb == s1.targetKb;
    var s2 := SignatureFallback(r, s1);
    assert s2.mode == Signature ==> r.mode == Signature && SignatureAvailable(r.selectedExam);
    var s3 := CategorySync(r, s2);
    CategorySyncSelects(r, s2);
    var s4 := PassportPhotoOnly(r, s3);
    assert s4.selectedExam == s3.selectedExam && s4.category == r.category;
  }

  /** The target those effects leave is the rendered target clamped to the rendered contract's
      window: a new preset's window is only applied by the next pass. */
  lemma SelectionEffectsClampTarget(r: EditorState)
    ensures SelectionEffects(r).targetKb == Clamp(r.targetKb, Active(r).minKB, Active(r).maxKB)
  {
    var s1 := ClampTarget(r, r);
    var s2 := SignatureFallback(r, s1);
    var s3 := CategorySync(r, s2);
    assert s3.targetKb == s2.targetKb == s1.targetKb;
  }

  /** Signature mode is dropped where the rendered preset has no signature contract, and for
      passports. */
  lemma SelectionEffectsChooseMode(r: EditorState)
    ensures SelectionEffects(r).mode
      == if r.category == Passport || !SignatureAvailable(r.selectedExam) then Photo else r.mode
  {
    var s1 := ClampTarget(r, r);
    var s2 := SignatureFallback(r, s1);
    var s3 := CategorySync(r, s2);
    assert s3.mode == s2.mode;
  }

  /** A preset of another category is replaced by the first preset of the category. */
  lemma SelectionEffectsChoosePreset(r: EditorState)
    ensures FilterByCategory(EXAM_PRESETS, r.category) != []
    ensures SelectionEffects(r).selectedExam
      == if r.selectedExam.category == r.category then r.selectedExam
         else FilterByCategory(EXAM_PRESETS, r.category)[0]
  {
    CategoryPopulated(r.category);
    var s1 := ClampTarget(r, r);
    var s2 := SignatureFallback(r, s1);
    assert s2.selectedExam == r.selectedExam;
  }

  /** The category sync leaves a preset of the category in place: either the rendered one, or
      the first of the category; signature mode stays available when it was. */
  lemma CategorySyncSelects(r: EditorState, s: EditorState)
    requires r.selectedExam in EXAM_PRESETS && s.selectedExam == r.selectedExam && s.category == r.category
    requires s.mode == Signature ==> r.mode == Signature && SignatureAvailable(r.selectedExam)
    ensures var t := CategorySync(r, s);
      && t.selectedExam in EXAM_PRESETS && t.selectedExam.category == r.category
      && FilterByCategory(EXAM_PRESETS, r.category) != []
      && t.selectedExam == (if r.selectedExam.category == r.category then r.selectedExam
                            else FilterByCategory(EXAM_PRESETS, r.category)[0])
      && t.mode == s.mode && t.category == s.category && t.showDate == s.showDate
      && t.targetKb == s.targetKb && t.displayTargetKb == s.displayTargetKb
      && (t.mode == Signature && r.category == Exam ==> SignatureAvailable(t.selectedExam))
  {
    FirstOfEachCategory();
    ExamPresetsHaveSignature();
    var presets := FilterByCategory(EXAM_PRESETS, r.category);
    assert presets[0] in presets;
  }

  /** A second pass over a right selection keeps it and moves the target into the window. */
  lemma SecondPassClamps(prev: Option<EditorState>, r: EditorState, center: CenterCrop)
    requires SelectionConsistent(r)
    ensures var s := Pass(prev, r, center);
      Consistent(s) && s.selectedExam == r.selectedExam && s.mode == r.mode
  {
    ActiveSpecWellFormed(r.selectedExam, r.mode);
  }

  /** A consistent state whose preset and mode did not change since the last render is left as
      it is by the effects: React renders no more. */
  lemma ConsistentIsFixpoint(prev: EditorState, s: EditorState, center: CenterCrop)
    requires Consistent(s)
    requires prev.selectedExam == s.selectedExam && prev.mode == s.mode
    ensures Pass(Some(prev), s, center) == s
  {
  }

  /** Conversely, a state the effects leave unchanged is consistent. */
  lemma FixpointIsConsistent(prev: Option<EditorState>, s: EditorState, center: CenterCrop)
    requires s.selectedExam in EXAM_PRESETS && s.displayTargetKb == s.targetKb
    requires Pass(prev, s, center) == s
    ensures Consistent(s)
  {
    FirstPassSelects(prev, s, center);
    ActiveSpecWellFormed(s.selectedExam, s.mode);
    var spec := Active(s);
    assert Clamp(s.targetKb, spec.minKB, spec.maxKB) == s.targetKb;
  }

  /** From any state with a preset of the table, at most three passes of the effects reach a
      consistent state the effects no longer change. */
  lemma SettlesWithinThreePasses(prev: Option<EditorState>, r: EditorState, center: CenterCrop)
    requires r.selectedExam in EXAM_PRESETS && r.displayTargetKb == r.targetKb
    ensures var s1 := Pass(prev, r, center);
      var s2 := Pass(Some(r), s1, center);
      Consistent(s2) && Pass(Some(s1), s2, center) == s2
  {
    var s1 := Pass(prev, r, center);
    FirstPassSelects(prev, r, center);
    SecondPassClamps(Some(r), s1, center);
    ConsistentIsFixpoint(s1, Pass(Some(r), s1, center), center);
  }

  /** On the passport page the editor mounts with the first preset (an exam one); the effects
      switch to the first passport preset and move the target into its window. */
  lemma PassportPageMounts(today: CalendarDate, center: CenterCrop)
    requires ValidDate(today)
    ensures var r := Initial(Some(PassportPage), today);
      var s1 := Pass(None, r, center);
      var s2 := Pass(Some(r), s1, center);
      && s2.selectedExam == GENERIC_PASSPORT && s2.mode == Photo
      && s2.targetKb == GENERIC_PASSPORT.minKB && Consistent(s2)
  {
    FirstOfEachCategory();
    var r := Initial(Some(PassportPage), today);
    assert r.selectedExam == UPSC && r.category == Passport && r.mode == Photo && r.targetKb == 20;
    SettlesWithinThreePasses(None, r, center);
    SelectionEffectsChoosePreset(r);
    SelectionEffectsChooseMode(r);
    SelectionEffectsClampTarget(r);
    LateEffectsFrame(None, r, center);
    var s1 := Pass(None, r, center);
    assert s1.selectedExam == GENERIC_PASSPORT && s1.mode == Photo && s1.targetKb == 20;
    SelectionEffectsChoosePreset(s1);
    SelectionEffectsChooseMode(s1);
    SelectionEffectsClampTarget(s1);
    LateEffectsFrame(Some(r), s1, center);
    assert Active(s1) == Spec(413, 531, 50, 100, 413.0 / 531.0);
  }

  /** Elsewhere the initial state is already consistent and the effects keep it. */
  lemma ExamPageMounts(pageMode: Option<PageMode>, today: CalendarDate, center: CenterCrop)
    requires ValidDate(today) && pageMode != Some(PassportPage)
    ensures Consistent(Initial(pageMode, today))
    ensures Pass(None, Initial(pageMode, today), center) == Initial(pageMode, today)
  {
    FirstPresetIsExam();
    PhotoContractsWellFormed();
  }

  // ---------------------------------------------------------------------------------------------
  // The component

  /** The size label the editor shows for an output of `sizeKb`: `≈`, the size, then ` KB`. */
  function SizeLabel(sizeKb: int): (r: string)
    ensures |r| > 4 && r[0] == '\U{2248}' && EndsWith(r, " KB")
  {
    "\U{2248}" + IntToString(sizeKb) + " KB"
  }

  /** The number between `≈` and ` KB` reads back as the size. */
  lemma SizeLabelReadsBack(sizeKb: int)
    ensures var r := SizeLabel(sizeKb); ReadsAsInt(r[1..|r| - 3], sizeKb)
  {
    var n := IntToString(sizeKb);
    IntToStringReads(sizeKb);
    var r := SizeLabel(sizeKb);
    assert r == "\U{2248}" + n + " KB";
    assert r[1..|r| - 3] == n;
  }

  /** The range message's template, filled with the printed size and window bounds. */
  function RangeMessage(size: string, lo: string, hi: string): (r: string)
    ensures |r| > 11 && r[..11] == "Output is ~" && EndsWith(r, " KB.")
  {
    var head, tail := "Output is ~", " KB.";
    var middle := size + " KB. Adjust the target slider to stay within " + lo + "-" + hi;
    EndsWithTail(head + middle, tail, tail);
    assert (head + middle + tail)[..11] == head;
    head + middle + tail
  }

  /** The message of an output outside the KB window: the size, then the window `minKB-maxKB`. */
  function RangeError(sizeKb: int, minKB: int, maxKB: int): (r: string)
    ensures |r| > 11 && r[..11] == "Output is ~" && EndsWith(r, " KB.")
  {
    RangeMessage(IntToString(sizeKb), IntToString(minKB), IntToString(maxKB))
  }

  /** The range message is its template filled with strings that read back as the size, the
      window's minimum and its maximum. */
  lemma RangeErrorReadsBack(sizeKb: int, minKB: int, maxKB: int)
    ensures exists size, lo, hi :: RangeError(sizeKb, minKB, maxKB) == RangeMessage(size, lo, hi)
              && ReadsAsInt(size, sizeKb) && ReadsAsInt(lo, minKB) && ReadsAsInt(hi, maxKB)
  {
    IntToStringReads(sizeKb);
    IntToStringReads(minKB);
    IntToStringReads(maxKB);
  }

  /** What `renderCanvas` is given by the state. */
  function StampOf(s: EditorState, today: CalendarDate): Stamp
  {
    Stamp(IsSignatureMode(s.selectedExam, s.mode), s.showDate, s.selectedExam.supportsDate,
          s.nameOnPhoto, s.dateValue, today)
  }

  /** The end of `generateCroppedImage` on the state `s` (its error already cleared): the blob at
      the quality found, or its absence, and the size it was reported at. */
  function Delivered(s: EditorState, blob: Option<nat>, sizeKb: int, spec: Spec, url: string): (t: EditorState)
    ensures t == s.(error := t.error, estimatedFileSize := t.estimatedFileSize, downloadUrl := t.downloadUrl)
  {
    if blob.None? then s.(error := Some(BLOB_ERROR))
    else if sizeKb < spec.minKB || sizeKb > spec.maxKB then s.(error := Some(RangeError(sizeKb, spec.minKB, spec.maxKB)))
    else s.(estimatedFileSize := SizeLabel(sizeKb), downloadUrl := Some(url))
  }

  /** A download link and a size label are offered exactly when a blob was produced inside the
      KB window, and then no error is shown; otherwise only the error changes. */
  lemma DeliveredOnlyInWindow(s: EditorState, blob: Option<nat>, sizeKb: int, spec: Spec, url: string)
    requires s.error.None?
    ensures var t := Delivered(s, blob, sizeKb, spec, url);
      && (t.error.None? <==> blob.Some? && spec.minKB <= sizeKb <= spec.maxKB)
      && (t.error.None? ==> t.downloadUrl == Some(url) && t.estimatedFileSize == SizeLabel(sizeKb))
      && (t.error.Some? ==> t.downloadUrl == s.downloadUrl && t.estimatedFileSize == s.estimatedFileSize)
      && t.(error := None, downloadUrl := s.downloadUrl, estimatedFileSize := s.estimatedFileSize) == s
  {
  }

  class Editor {
    var category: Category
    var selectedExam: ExamPreset
    var imageSrc: Option<string>
    var crop: Option<PercentCrop>
    var completedCrop: Option<PixelCrop>
    var downloadUrl: Option<string>
    var error: Option<string>
    var showDate: bool
    var dateValue: string
    var nameOnPhoto: string
    var targetKb: int
    var displayTargetKb: int
    var estimatedFileSize: string
    var mode: Mode
    var image: Option<ImageElement>

    function View(): EditorState
      reads this
    {
      EditorState(category, selectedExam, imageSrc, crop, completedCrop, downloadUrl, error, showDate,
                  dateValue, nameOnPhoto, targetKb, displayTargetKb, estimatedFileSize, mode, image)
    }

    /** What every handler keeps: a preset of the table, and the slider showing the target. */
    predicate Valid()
      reads this
    {
      selectedExam in EXAM_PRESETS && displayTargetKb == targetKb
    }

    /** The `useState` initial values. */
    constructor (pageMode: Option<PageMode>, today: CalendarDate)
      requires ValidDate(today)
      ensures Valid() && View() == Initial(pageMode, today)
    {
      category := if pageMode == Some(PassportPage) then Passport else Exam;
      selectedExam := EXAM_PRESETS[0];
      imageSrc, crop, completedCrop, downloadUrl, error := None, None, None, None, None;
      showDate := false;
      dateValue := FormatDisplayDate(today);
      nameOnPhoto := "";
      targetKb := EXAM_PRESETS[0].minKB;
      displayTargetKb := EXAM_PRESETS[0].minKB;
      estimatedFileSize := NO_ESTIMATE;
      mode := Photo;
      image := None;
    }

    method ClearOutput()
      modifies this
      ensures View() == ClearedOutput(old(View()))
    {
      crop := None;
      completedCrop := None;
      downloadUrl := None;
      error := None;
    }

    // Handlers

    /** `onDrop`, once the file reader has produced a data URL. */
    method DropFile(dataUrl: string)
      requires Valid()
      modifies this
      ensures Valid() && View() == ClearedOutput(old(View())).(imageSrc := Some(dataUrl))
    {
      imageSrc := Some(dataUrl);
      ClearOutput();
    }

    /** `handleExamChange`: an unknown id changes nothing; otherwise the preset is selected and
        the output cleared. */
    method HandleExamChange(id: string)
      requires Valid()
      modifies this
      ensures Valid()
      ensures FindById(EXAM_PRESETS, id).None? ==> View() == old(View())
      ensures FindById(EXAM_PRESETS, id).Some? ==>
                View() == ClearedOutput(old(View()).(selectedExam := FindById(EXAM_PRESETS, id).value))
    {
      var next := FindById(EXAM_PRESETS, id);
      if next.None? {
        return;
      }
      selectedExam := next.value;
      ClearOutput();
    }

    /** `handleModeChange`: the same mode, or an unavailable signature mode, changes nothing;
        otherwise the mode is switched and the output cleared. */
    method HandleModeChange(nextMode: Mode)
      requires Valid()
      modifies this
      ensures Valid()
      ensures nextMode == old(mode) || (nextMode == Signature && !SignatureAvailable(old(selectedExam))) ==>
                View() == old(View())
      ensures nextMode != old(mode) && (nextMode == Signature ==> SignatureAvailable(old(selectedExam))) ==>
                View() == ClearedOutput(old(View()).(mode := nextMode))
    {
      if nextMode == mode {
        return;
      }
      if nextMode == Signature && !SignatureAvailable(selectedExam) {
        return;
      }
      mode := nextMode;
      ClearOutput();
    }

    /** The category buttons of the home page. */
    method SelectCategory(c: Category)
      requires Valid()
      modifies this
      ensures Valid() && View() == old(View()).(category := c)
    {
      category := c;
    }

    /** The date-strip toggle. */
    method ToggleShowDate()
      requires Valid()
      requires !IsSignatureMode(selectedExam, mode) && TruthyBool(selectedExam.supportsDate)
      modifies this
      ensures Valid() && View() == old(View()).(showDate := !old(showDate))
    {
      showDate := !showDate;
    }

    /** The name field. */
    method TypeName(text: string)
      requires Valid()
      requires !IsSignatureMode(selectedExam, mode) && TruthyBool(selectedExam.supportsDate) && showDate
      modifies this
      ensures Valid() && View() == old(View()).(nameOnPhoto := text)
    {
      nameOnPhoto := text;
    }

    /** The date input: its YYYY-MM-DD value stored in display form, or "" when incomplete. */
    method PickDate(input: string)
      requires Valid()
      requires !IsSignatureMode(selectedExam, mode) && TruthyBool(selectedExam.supportsDate) && showDate
      modifies this
      ensures Valid() && View() == old(View()).(dateValue := InputToDisplayDate(input))
    {
      var formatted := InputToDisplayDate(input);
      dateValue := if formatted != "" then formatted else "";
    }

    /** The size slider: its value rounded, for the label and the target alike. */
    method MoveSlider(value: real)
      requires Valid()
      requires completedCrop.Some?
      modifies this
      ensures Valid() && View() == old(View()).(targetKb := Round(value), displayTargetKb := Round(value))
    {
      var nextValue := Round(value);
      displayTargetKb := nextValue;
      targetKb := nextValue;
    }

    /** The crop being dragged. */
    method ChangeCrop(percentCrop: PercentCrop)
      requires Valid()
      modifies this
      ensures Valid() && View() == old(View()).(crop := Some(percentCrop))
    {
      crop := Some(percentCrop);
    }

    /** The crop let go. */
    method CompleteCrop(c: PixelCrop)
      requires Valid()
      modifies this
      ensures Valid() && View() == old(View()).(completedCrop := Some(c))
    {
      completedCrop := Some(c);
    }

    /** `onImageLoad`: the element is kept and the crop centred at the active aspect ratio. */
    method ImageLoaded(img: ImageElement, center: CenterCrop)
      requires Valid()
      modifies this
      ensures Valid()
      ensures View() == old(View()).(image := Some(img),
                                     crop := Some(center(img.naturalWidth, img.naturalHeight, Active(old(View())).aspectRatio)))
    {
      image := Some(img);
      crop := Some(center(img.naturalWidth, img.naturalHeight, ActiveSpec(selectedExam, mode).aspectRatio));
    }

    /** `handleRemoveBackground`, given what the removal produced (`None` when it failed):
        nothing without an image; otherwise the new image with the output cleared, or the error. */
    method BackgroundRemoved(result: Option<string>)
      requires Valid()
      modifies this
      ensures Valid()
      ensures old(imageSrc).None? ==> View() == old(View())
      ensures old(imageSrc).Some? && result.Some? ==>
                View() == ClearedOutput(old(View())).(imageSrc := result)
      ensures old(imageSrc).Some? && result.None? ==> View() == old(View()).(error := Some(BACKGROUND_ERROR))
    {
      if imageSrc.None? {
        return;
      }
      error := None;
      if result.Some? {
        imageSrc := result;
        crop := None;
        completedCrop := None;
        downloadUrl := None;
      } else {
        error := Some(BACKGROUND_ERROR);
      }
    }

    // Effects

    method ClampTargetEffect(r: EditorState)
      modifies this
      ensures View() == ClampTarget(r, old(View()))
    {
      var spec := ActiveSpec(r.selectedExam, r.mode);
      var clamped := Clamp(r.targetKb, spec.minKB, spec.maxKB);
      if clamped != r.targetKb {
        targetKb := clamped;
        displayTargetKb := clamped;
      } else {
        displayTargetKb := Clamp(displayTargetKb, spec.minKB, spec.maxKB);
      }
    }

    method SignatureFallbackEffect(r: EditorState)
      modifies this
      ensures View() == SignatureFallback(r, old(View()))
    {
      if r.mode == Signature && !SignatureAvailable(r.selectedExam) {
        mode := Photo;
        ClearOutput();
      }
    }

    method CategorySyncEffect(r: EditorState)
      modifies this
      ensures View() == CategorySync(r, old(View()))
    {
      var presets := FilterByCategory(EXAM_PRESETS, r.category);
      if presets == [] {
        return;
      }
      if r.selectedExam.category == r.category {
        return;
      }
      selectedExam := presets[0];
      ClearOutput();
    }

    method PassportPhotoOnlyEffect(r: EditorState)
      modifies this
      ensures View() == PassportPhotoOnly(r, old(View()))
    {
      if r.category == Passport && r.mode != Photo {
        mode := Photo;
        ClearOutput();
      }
    }

    method DateEffects(prev: Option<EditorState>, r: EditorState)
      modifies this
      ensures View() == DateOffInSignatureMode(r, DateOffOnPresetChange(prev, r, old(View())))
    {
      if prev.None? || prev.value.selectedExam != r.selectedExam {
        showDate := false;
      }
      if r.mode == Signature {
        showDate := false;
      }
    }

    method RecenterCropEffect(prev: Option<EditorState>, r: EditorState, center: CenterCrop)
      modifies this
      ensures View() == RecenterCrop(prev, r, old(View()), center)
    {
      var aspect := ActiveSpec(r.selectedExam, r.mode).aspectRatio;
      if prev.Some? && prev.value.selectedExam == r.selectedExam && prev.value.mode == r.mode
         && ActiveSpec(prev.value.selectedExam, prev.value.mode).aspectRatio == aspect {
        return;
      }
      if image.None? {
        return;
      }
      crop := Some(center(image.value.naturalWidth, image.value.naturalHeight, aspect));
      completedCrop := None;
    }

    /** The effects of one commit, in declaration order, each reading the render's values. */
    method RunEffects(prev: Option<EditorState>, center: CenterCrop)
      modifies this
      ensures View() == Pass(prev, old(View()), center)
    {
      var r := View();
      ClampTargetEffect(r);
      SignatureFallbackEffect(r);
      CategorySyncEffect(r);
      PassportPhotoOnlyEffect(r);
      DateEffects(prev, r);
      RecenterCropEffect(prev, r, center);
    }

    /** Renders and their effects until the state stops changing: the state is then consistent,
        and running the effects again would change nothing. */
    method Settle(prev: Option<EditorState>, center: CenterCrop)
      requires Valid()
      modifies this
      ensures Valid() && Consistent(View())
      ensures Pass(Some(View()), View(), center) == View()
    {
      var r := View();
      RunEffects(prev, center);
      SettlesWithinThreePasses(prev, r, center);
      if View() == r {
        FixpointIsConsistent(prev, r, center);
        ConsistentIsFixpoint(r, r, center);
        return;
      }
      var s1 := View();
      FirstPassSelects(prev, r, center);
      RunEffects(Some(r), center);
      if View() == s1 {
        ConsistentIsFixpoint(s1, s1, center);
        return;
      }
      var s2 := View();
      RunEffects(Some(s1), center);
      ConsistentIsFixpoint(s2, s2, center);
    }

    /** `generateCroppedImage`, with the codec of the rendered canvas, whether a 2D context is
        available, today's date, and the object URL the blob would get as parameters. */
    method GenerateCroppedImage(codecFor: Drawing -> Codec, hasContext: bool, today: CalendarDate, url: string)
        returns (ghost quality: real, ghost sizeKb: int)
      requires Valid() && Displayed(image) && ValidDate(today)
      modifies this
      ensures Valid()
      ensures old(image).None? || old(completedCrop).None? ==> View() == old(View())
      ensures old(image).Some? && old(completedCrop).Some? ==>
        var before := old(View());
        var spec := Active(before);
        var plan := Plan(before.image, before.completedCrop, hasContext, spec.width as nat, spec.height as nat,
                         StampOf(before, today));
        && (plan.None? ==> View() == before.(error := Some(PREPARE_ERROR)))
        && (plan.Some? ==>
              && SearchOutcome(codecFor(plan.value), before.targetKb, quality, sizeKb)
              && View() == Delivered(before.(error := None), codecFor(plan.value)(quality), sizeKb, spec, url))
    {
      ActiveSpecWellFormed(selectedExam, mode);
      if image.None? || completedCrop.None? {
        return 0.0, 0;
      }
      error := None;
      var isSignatureMode := IsSignatureMode(selectedExam, mode);
      if isSignatureMode && !SignatureAvailable(selectedExam) {
        // "Signature dimensions not available for this exam." cannot be raised.
        assert false;
      }
      var spec := ActiveSpec(selectedExam, mode);
      var stamp := Stamp(isSignatureMode, showDate, selectedExam.supportsDate, nameOnPhoto, dateValue, today);
      var canvas := RenderCanvas(image, completedCrop, hasContext, spec.width as nat, spec.height as nat, stamp);
      if canvas == null {
        error := Some(PREPARE_ERROR);
        return 0.0, 0;
      }
      quality, sizeKb := Export(codecFor(canvas.Contents()), spec, url);
    }

    /** The rest of `generateCroppedImage` once the canvas is rendered: the quality search, the
        blob at the quality found, the KB window check, and the size label and download link. */
    method Export(encode: Codec, spec: Spec, url: string) returns (ghost quality: real, ghost sizeKb: int)
      modifies this
      ensures SearchOutcome(encode, old(targetKb), quality, sizeKb)
      ensures View() == Delivered(old(View()), encode(quality), sizeKb, spec, url)
    {
      ghost var before := View();
      var resolvedQuality, size;
      ghost var encodes;
      resolvedQuality, size, encodes := FindQualityForKB(encode, targetKb);
      quality, sizeKb := resolvedQuality, size;
      assert View() == before;
      var blob := encode(resolvedQuality);
      if blob.None? {
        error := Some(BLOB_ERROR);
        assert View() == before.(error := Some(BLOB_ERROR));
        return;
      }
      if size < spec.minKB || size > spec.maxKB {
        error := Some(RangeError(size, spec.minKB, spec.maxKB));
        return;
      }
      estimatedFileSize := SizeLabel(size);
      downloadUrl := Some(url);
    }
  }
}
