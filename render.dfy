/** `renderCanvas` in src/components/PhotoEditor.tsx: the crop drawn onto a canvas of the output
    size, and for date-stamped presets a white strip across the bottom 18% carrying the name
    and the date. A canvas records what is drawn on it as a list of drawing operations. */
module Render {
  import opened Wrappers
  import opened Text
  import opened Dates

  /** The image element the crop was drawn over: its natural size and its displayed size. */
  datatype ImageElement = ImageElement(naturalWidth: real, naturalHeight: real, width: real, height: real)

  /** A crop in displayed pixels, as react-image-crop reports it when the user lets go. */
  datatype PixelCrop = PixelCrop(x: real, y: real, width: real, height: real)

  datatype Color = Black | White
  datatype TextAlign = Start | Center
  datatype TextBaseline = Alphabetic | Middle

  /** A `font` setting such as `600 12px sans-serif`: the weight and the size in pixels. */
  datatype Font = Font(weight: nat, px: real)

  /** The default `font` of a 2D context, `10px sans-serif`. */
  const DEFAULT_FONT: Font := Font(400, 10.0)

  datatype DrawOp =
    | DrawImage(sx: real, sy: real, sw: real, sh: real, dx: real, dy: real, dw: real, dh: real)
    | FillRect(fill: Color, x: real, y: real, w: real, h: real)
    | FillText(text: string, tx: real, ty: real, textFill: Color, font: Font, align: TextAlign, baseline: TextBaseline)

  /** A finished canvas: its size and what was drawn on it, in order. */
  datatype Drawing = Drawing(width: int, height: int, ops: seq<DrawOp>)

  /** A canvas with its 2D context. */
  class Canvas {
    var width: int
    var height: int
    var fillStyle: Color
    var font: Font
    var textAlign: TextAlign
    var textBaseline: TextBaseline
    var ops: seq<DrawOp>

    /** `document.createElement("canvas")`: 300 by 150 with a fresh context. */
    constructor ()
      ensures width == 300 && height == 150 && ops == []
      ensures fillStyle == Black && font == DEFAULT_FONT && textAlign == Start && textBaseline == Alphabetic
    {
      width, height := 300, 150;
      fillStyle, font, textAlign, textBaseline := Black, DEFAULT_FONT, Start, Alphabetic;
      ops := [];
    }

    function Contents(): Drawing
      reads this
    {
      Drawing(width, height, ops)
    }

    /** `ctx.drawImage(image, sx, sy, sw, sh, dx, dy, dw, dh)`. */
    method DrawImageOp(sx: real, sy: real, sw: real, sh: real, dx: real, dy: real, dw: real, dh: real)
      modifies this
      ensures ops == old(ops) + [DrawImage(sx, sy, sw, sh, dx, dy, dw, dh)]
      ensures width == old(width) && height == old(height) && fillStyle == old(fillStyle)
      ensures font == old(font) && textAlign == old(textAlign) && textBaseline == old(textBaseline)
    {
      ops := ops + [DrawImage(sx, sy, sw, sh, dx, dy, dw, dh)];
    }

    /** `ctx.fillRect(x, y, w, h)` in the current fill style. */
    method FillRectOp(x: real, y: real, w: real, h: real)
      modifies this
      ensures ops == old(ops) + [FillRect(old(fillStyle), x, y, w, h)]
      ensures width == old(width) && height == old(height) && fillStyle == old(fillStyle)
      ensures font == old(font) && textAlign == old(textAlign) && textBaseline == old(textBaseline)
    {
      ops := ops + [FillRect(fillStyle, x, y, w, h)];
    }

    /** `ctx.fillText(text, x, y)` in the current fill style, font and alignment. */
    method FillTextOp(text: string, x: real, y: real)
      modifies this
      ensures ops == old(ops) + [FillText(text, x, y, old(fillStyle), old(font), old(textAlign), old(textBaseline))]
      ensures width == old(width) && height == old(height) && fillStyle == old(fillStyle)
      ensures font == old(font) && textAlign == old(textAlign) && textBaseline == old(textBaseline)
    {
      ops := ops + [FillText(text, x, y, fillStyle, font, textAlign, textBaseline)];
    }
  }

  /** What the editor contributes to the stamp: whether signature mode is on, the date toggle,
      the preset's `supportsDate`, the name and date typed in, and today's date. */
  datatype Stamp = Stamp(isSignatureMode: bool, showDate: bool, supportsDate: Option<bool>,
                         nameOnPhoto: string, dateValue: string, today: CalendarDate)

  /** The strip is drawn for a date-stamped preset with the toggle on, outside signature mode. */
  predicate StampShown(s: Stamp)
  {
    !s.isSignatureMode && s.showDate && s.supportsDate == Some(true)
  }

  function Max(a: real, b: real): real { if a >= b then a else b }

  /** A displayed length in natural pixels: `v * (natural / displayed)`. */
  function ToNatural(v: real, natural: real, displayed: real): (r: real)
    requires displayed != 0.0
    ensures r * displayed == v * natural
  {
    var scale := natural / displayed;
    assert scale * displayed == natural;
    assert v * scale * displayed == v * (scale * displayed);
    v * scale
  }

  /** The crop is drawn: an image and a completed crop of non-zero width and height. */
  predicate CropDrawable(image: Option<ImageElement>, crop: Option<PixelCrop>)
  {
    image.Some? && crop.Some? && crop.value.width != 0.0 && crop.value.height != 0.0
  }

  /** The displayed image has a size, so the scale factors exist. */
  predicate Displayed(image: Option<ImageElement>)
  {
    image.Some? ==> image.value.width != 0.0 && image.value.height != 0.0
  }

  /** The stamp's strings once `renderCanvas` has prepared them: the trimmed name, the trimmed
      date and today's date in display form. */
  datatype Caption = Caption(name: string, date: string, today: string)

  /** The caption `renderCanvas` prepares from the editor's stamp settings. */
  function CaptionOf(s: Stamp): (c: Caption)
    requires ValidDate(s.today)
    ensures c.today != ""
  {
    Caption(Trim(s.nameOnPhoto), Trim(s.dateValue), FormatDisplayDate(s.today))
  }

  /** The text of the single line: the name, else the date, else today's date. */
  function SoloText(c: Caption): string
  {
    if c.name != "" then c.name else if c.date != "" then c.date else c.today
  }

  /** The white strip across the bottom 18% of a canvas `w` by `h`. */
  function StripOp(w: real, h: real): DrawOp
  {
    FillRect(White, 0.0, h - h * 0.18, w, h * 0.18)
  }

  /** The text lines of the stamp on a canvas `w` by `h`. */
  function LineOps(w: real, h: real, c: Caption): (r: seq<DrawOp>)
    ensures |r| == 1 || |r| == 2
  {
    var top, band := h - h * 0.18, h * 0.18;
    if c.name != "" && c.date != "" then
      [ FillText(c.name, w / 2.0, top + band * 0.4, Black, Font(600, Max(h * 0.06, 11.0)), Center, Middle),
        FillText(c.date, w / 2.0, top + band * 0.78, Black, Font(500, Max(h * 0.055, 10.0)), Center, Middle) ]
    else
      [ FillText(SoloText(c), w / 2.0, top + band / 2.0, Black, Font(600, Max(h * 0.07, 12.0)), Center, Middle) ]
  }

  /** The strip and its text on a canvas `w` by `h`. */
  function OverlayOps(w: real, h: real, c: Caption): (r: seq<DrawOp>)
    ensures |r| == 2 || |r| == 3
  {
    [StripOp(w, h)] + LineOps(w, h, c)
  }

  /** The canvas `renderCanvas` returns, or `None` where it returns `null`. */
  function Plan(image: Option<ImageElement>, crop: Option<PixelCrop>, hasContext: bool,
                activeWidth: nat, activeHeight: nat, s: Stamp): (r: Option<Drawing>)
    requires Displayed(image) && ValidDate(s.today)
    ensures r.Some? <==> CropDrawable(image, crop) && hasContext
    ensures r.Some? ==> r.value.width == activeWidth && r.value.height == activeHeight
  {
    if !CropDrawable(image, crop) || !hasContext then None
    else
      var img, c := image.value, crop.value;
      var w, h := activeWidth as real, activeHeight as real;
      var picture := DrawImage(ToNatural(c.x, img.naturalWidth, img.width), ToNatural(c.y, img.naturalHeight, img.height),
                               ToNatural(c.width, img.naturalWidth, img.width), ToNatural(c.height, img.naturalHeight, img.height),
                               0.0, 0.0, w, h);
      Some(Drawing(activeWidth, activeHeight, [picture] + if StampShown(s) then OverlayOps(w, h, CaptionOf(s)) else []))
  }

  /** `renderCanvas`: draws the crop onto a fresh canvas of the output size, then the stamp. */
  method RenderCanvas(image: Option<ImageElement>, crop: Option<PixelCrop>, hasContext: bool,
                      activeWidth: nat, activeHeight: nat, s: Stamp) returns (canvas: Canvas?)
    requires Displayed(image) && ValidDate(s.today)
    ensures canvas == null <==> Plan(image, crop, hasContext, activeWidth, activeHeight, s).None?
    ensures canvas != null ==> fresh(canvas)
                               && canvas.Contents() == Plan(image, crop, hasContext, activeWidth, activeHeight, s).value
  {
    if image.None? || crop.None? {
      return null;
    }
    var c := crop.value;
    if c.width == 0.0 || c.height == 0.0 {
      return null;
    }

    canvas := new Canvas();
    canvas.width := activeWidth;
    canvas.height := activeHeight;
    if !hasContext {
      return null;
    }

    var img := image.value;
    var scaleX := img.naturalWidth / img.width;
    var scaleY := img.naturalHeight / img.height;
    var cropX := c.x * scaleX;
    var cropY := c.y * scaleY;
    var cropWidth := c.width * scaleX;
    var cropHeight := c.height * scaleY;
    canvas.DrawImageOp(cropX, cropY, cropWidth, cropHeight, 0.0, 0.0, activeWidth as real, activeHeight as real);
    ghost var picture := canvas.ops;
    assert picture == picture + [];
    assert cropX == ToNatural(c.x, img.naturalWidth, img.width);
    assert cropY == ToNatural(c.y, img.naturalHeight, img.height);
    assert cropWidth == ToNatural(c.width, img.naturalWidth, img.width);
    assert cropHeight == ToNatural(c.height, img.naturalHeight, img.height);
    assert picture == [DrawImage(cropX, cropY, cropWidth, cropHeight, 0.0, 0.0, activeWidth as real, activeHeight as real)];

    if !s.isSignatureMode && s.showDate && s.supportsDate == Some(true) {
      var caption := Caption(Trim(s.nameOnPhoto), Trim(s.dateValue), FormatDisplayDate(s.today));
      DrawStamp(canvas, caption);
      assert canvas.ops == picture + OverlayOps(activeWidth as real, activeHeight as real, CaptionOf(s));
    }
  }

  /** The stamp block of `renderCanvas`: the white strip, then the name and date lines. */
  method DrawStamp(canvas: Canvas, c: Caption)
    modifies canvas
    ensures canvas.ops == old(canvas.ops) + OverlayOps(canvas.width as real, canvas.height as real, c)
    ensures canvas.width == old(canvas.width) && canvas.height == old(canvas.height)
  {
    var w, h := canvas.width as real, canvas.height as real;
    var stripHeight := h * 0.18;
    var stripTop := h - stripHeight;
    var centerX := w / 2.0;
    var hasName := c.name != "";
    var hasDate := c.date != "";

    canvas.fillStyle := White;
    canvas.FillRectOp(0.0, stripTop, w, stripHeight);
    canvas.fillStyle := Black;
    canvas.textAlign := Center;
    canvas.textBaseline := Middle;
    ghost var afterStrip := canvas.ops;

    if hasName && hasDate {
      var nameFont := Max(h * 0.06, 11.0);
      canvas.font := Font(600, nameFont);
      canvas.FillTextOp(c.name, centerX, stripTop + stripHeight * 0.4);

      var dateFont := Max(h * 0.055, 10.0);
      canvas.font := Font(500, dateFont);
      canvas.FillTextOp(c.date, centerX, stripTop + stripHeight * 0.78);
    } else {
      var soloFont := Max(h * 0.07, 12.0);
      canvas.font := Font(600, soloFont);
      var fallbackText := if hasName then c.name else if hasDate then c.date else c.today;
      canvas.FillTextOp(fallbackText, centerX, stripTop + stripHeight / 2.0);
    }
    assert canvas.ops == afterStrip + LineOps(w, h, c);
    assert afterStrip == old(canvas.ops) + [StripOp(w, h)];
  }

  // ---------------------------------------------------------------------------------------------
  // Properties of the plan

  /** The crop fills the whole output, and its source rectangle is the displayed crop scaled by
      the natural-to-displayed ratio of each axis. */
  lemma CropScaledPerAxis(image: Option<ImageElement>, crop: Option<PixelCrop>, hasContext: bool,
                          activeWidth: nat, activeHeight: nat, s: Stamp)
    requires Displayed(image) && ValidDate(s.today)
    requires CropDrawable(image, crop) && hasContext
    ensures var d := Plan(image, crop, hasContext, activeWidth, activeHeight, s).value;
      var img, c := image.value, crop.value;
      && |d.ops| >= 1
      && d.ops[0] == DrawImage(d.ops[0].sx, d.ops[0].sy, d.ops[0].sw, d.ops[0].sh,
                               0.0, 0.0, activeWidth as real, activeHeight as real)
      && d.ops[0].sx * img.width == c.x * img.naturalWidth
      && d.ops[0].sw * img.width == c.width * img.naturalWidth
      && d.ops[0].sy * img.height == c.y * img.naturalHeight
      && d.ops[0].sh * img.height == c.height * img.naturalHeight
  {
  }

  /** One side of the mapping: a span inside the displayed extent maps inside the natural one. */
  lemma SpanInside(x: real, w: real, displayed: real, natural: real)
    requires 0.0 <= x && 0.0 <= w && x + w <= displayed && 0.0 < displayed && 0.0 <= natural
    ensures 0.0 <= ToNatural(x, natural, displayed)
    ensures ToNatural(x, natural, displayed) + ToNatural(w, natural, displayed) <= natural
  {
    var sx, sw := ToNatural(x, natural, displayed), ToNatural(w, natural, displayed);
    var scale := natural / displayed;
    assert scale >= 0.0;
    assert sx == x * scale && sw == w * scale;
    assert sx + sw == (x + w) * scale;
    assert (x + w) * scale <= displayed * scale;
    assert displayed * scale == natural;
  }

  /** A crop that lies inside the displayed image takes its pixels from inside the natural image. */
  lemma SourceInsideImage(image: Option<ImageElement>, crop: Option<PixelCrop>, hasContext: bool,
                          activeWidth: nat, activeHeight: nat, s: Stamp)
    requires Displayed(image) && ValidDate(s.today)
    requires CropDrawable(image, crop) && hasContext
    requires var img, c := image.value, crop.value;
      && 0.0 < img.width && 0.0 < img.height && 0.0 <= img.naturalWidth && 0.0 <= img.naturalHeight
      && 0.0 <= c.x && 0.0 <= c.width && c.x + c.width <= img.width
      && 0.0 <= c.y && 0.0 <= c.height && c.y + c.height <= img.height
    ensures var op := Plan(image, crop, hasContext, activeWidth, activeHeight, s).value.ops[0];
      var img := image.value;
      && 0.0 <= op.sx && op.sx + op.sw <= img.naturalWidth
      && 0.0 <= op.sy && op.sy + op.sh <= img.naturalHeight
  {
    var img, c := image.value, crop.value;
    SpanInside(c.x, c.width, img.width, img.naturalWidth);
    SpanInside(c.y, c.height, img.height, img.naturalHeight);
  }

  /** Without the stamp the canvas holds the crop alone: in signature mode, with the toggle off,
      and for presets without `supportsDate`. */
  lemma NoStampNoStrip(image: Option<ImageElement>, crop: Option<PixelCrop>, hasContext: bool,
                       activeWidth: nat, activeHeight: nat, s: Stamp)
    requires Displayed(image) && ValidDate(s.today)
    requires CropDrawable(image, crop) && hasContext
    ensures |Plan(image, crop, hasContext, activeWidth, activeHeight, s).value.ops| == 1 <==> !StampShown(s)
  {
  }

  /** With the stamp, a white strip as wide as the canvas covers its bottom 18%. */
  lemma StripCoversBottom(w: real, h: real, c: Caption)
    ensures var ops := OverlayOps(w, h, c);
      && ops[0] == FillRect(White, 0.0, ops[0].y, w, ops[0].h)
      && ops[0].h == 0.18 * h
      && ops[0].y + ops[0].h == h
  {
  }

  /** The stamp drawn for `s` is the strip and the lines of the caption `renderCanvas` prepares. */
  lemma StampIsOverlay(image: Option<ImageElement>, crop: Option<PixelCrop>, hasContext: bool,
                       activeWidth: nat, activeHeight: nat, s: Stamp)
    requires Displayed(image) && ValidDate(s.today)
    requires CropDrawable(image, crop) && hasContext && StampShown(s)
    ensures Plan(image, crop, hasContext, activeWidth, activeHeight, s).value.ops[1..]
            == OverlayOps(activeWidth as real, activeHeight as real, CaptionOf(s))
  {
  }

  /** When both the trimmed name and the trimmed date are non-blank the stamp has two lines: the
      name at 40% of the strip in a 600-weight font of at least 11px, the date at 78% in a
      500-weight font of at least 10px. */
  lemma StampTwoLines(w: real, h: real, c: Caption)
    requires c.name != "" && c.date != ""
    ensures var ops := OverlayOps(w, h, c);
      var top := h - h * 0.18;
      && |ops| == 3
      && ops[1] == FillText(c.name, w / 2.0, top + h * 0.18 * 0.4, Black, Font(600, Max(h * 0.06, 11.0)), Center, Middle)
      && ops[2] == FillText(c.date, w / 2.0, top + h * 0.18 * 0.78, Black, Font(500, Max(h * 0.055, 10.0)), Center, Middle)
  {
  }

  /** Otherwise the stamp has one line in the middle of the strip, in a 600-weight font of at
      least 12px, holding the trimmed name, else the trimmed date, else today's date; that line
      is never empty. */
  lemma StampOneLine(w: real, h: real, c: Caption)
    requires c.name == "" || c.date == ""
    requires c.today != ""
    ensures var ops := OverlayOps(w, h, c);
      var top := h - h * 0.18;
      && |ops| == 2
      && ops[1] == FillText(SoloText(c), w / 2.0, top + h * 0.18 / 2.0, Black, Font(600, Max(h * 0.07, 12.0)), Center, Middle)
      && SoloText(c) != ""
      && (c.name != "" ==> SoloText(c) == c.name)
      && (c.name == "" && c.date != "" ==> SoloText(c) == c.date)
      && (c.name == "" && c.date == "" ==> SoloText(c) == c.today)
  {
  }

  /** Every line of the stamp sits inside the strip. */
  lemma StampInsideStrip(w: real, h: real, c: Caption)
    requires 0.0 <= h
    ensures var ops := OverlayOps(w, h, c);
      forall i :: 1 <= i < |ops| ==> ops[i].FillText? && h - h * 0.18 <= ops[i].ty <= h
  {
  }
}
