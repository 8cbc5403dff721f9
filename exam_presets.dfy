/** The preset catalogue of src/lib/exam-presets.ts: one constant table of output contracts. */
module Presets {
  import opened Wrappers

  datatype Category = Exam | Passport

  /** One preset. The optional fields of the source record are `Option`s. */
  datatype ExamPreset = ExamPreset(
    id: string,
    name: string,
    category: Category,
    width: int,
    height: int,
    minKB: int,
    maxKB: int,
    aspectRatio: real,
    description: string,
    supportsDate: Option<bool>,
    sigWidth: Option<int>,
    sigHeight: Option<int>,
    sigMinKB: Option<int>,
    sigMaxKB: Option<int>,
    sigAspectRatio: Option<real>)

  /** JavaScript truthiness of an optional number: present and not zero. */
  predicate TruthyInt(o: Option<int>) { o.Some? && o.value != 0 }
  predicate TruthyReal(o: Option<real>) { o.Some? && o.value != 0.0 }
  predicate TruthyBool(o: Option<bool>) { o.Some? && o.value }

  /** All five signature fields are present and truthy. */
  predicate HasSignatureFields(p: ExamPreset)
  {
    TruthyInt(p.sigWidth) && TruthyInt(p.sigHeight) && TruthyInt(p.sigMinKB)
    && TruthyInt(p.sigMaxKB) && TruthyReal(p.sigAspectRatio)
  }

  /** No signature field is present at all. */
  predicate HasNoSignatureFields(p: ExamPreset)
  {
    p.sigWidth.None? && p.sigHeight.None? && p.sigMinKB.None?
    && p.sigMaxKB.None? && p.sigAspectRatio.None?
  }

  const UPSC: ExamPreset := ExamPreset("upsc", "UPSC Civil Services", Exam, 550, 550, 20, 300, 1.0,
    "Passport size (350x350px min), 20-300KB. (Using higher res for clarity).",
    None, Some(550), Some(250), Some(10), Some(20), Some(550.0 / 250.0))
  const SSC: ExamPreset := ExamPreset("ssc", "SSC CGL/CHSL", Exam, 413, 531, 20, 50, 413.0 / 531.0,
    "3.5cm x 4.5cm, 20-50KB.",
    Some(true), Some(550), Some(250), Some(10), Some(20), Some(550.0 / 250.0))
  const JEE: ExamPreset := ExamPreset("jee", "JEE Main", Exam, 413, 531, 10, 200, 413.0 / 531.0,
    "3.5cm x 4.5cm, 10-200KB.",
    None, Some(550), Some(200), Some(4), Some(30), Some(550.0 / 200.0))
  const NEET_POSTCARD: ExamPreset := ExamPreset("neet-postcard", "NEET UG (Postcard)", Exam, 1181, 1772, 10, 200, 1181.0 / 1772.0,
    "Postcard size (4x6 inches), 10-200KB.",
    None, Some(550), Some(200), Some(4), Some(30), Some(550.0 / 200.0))
  const IBPS: ExamPreset := ExamPreset("ibps", "IBPS PO/Clerk", Exam, 413, 531, 20, 50, 413.0 / 531.0,
    "3.5cm x 4.5cm, 20-50KB.",
    Some(true), Some(550), Some(250), Some(10), Some(20), Some(550.0 / 250.0))
  const GENERIC_PASSPORT: ExamPreset := ExamPreset("passport", "Generic Passport", Passport, 413, 531, 50, 100, 413.0 / 531.0,
    "Standard 3.5cm x 4.5cm, 50-100KB.",
    None, None, None, None, None, None)
  const VISA_STANDARD: ExamPreset := ExamPreset("visa-standard", "Visa (Standard Square)", Passport, 600, 600, 60, 240, 1.0,
    "Visa (US/Global) 2x2 inch requirements, 60-240KB range.",
    None, None, None, None, None, None)

  /** EXAM_PRESETS, in source order, with the source's literal values. */
  const EXAM_PRESETS: seq<ExamPreset> := [UPSC, SSC, JEE, NEET_POSTCARD, IBPS, GENERIC_PASSPORT, VISA_STANDARD]

  /** `EXAM_PRESETS.find(preset => preset.id === id)`: the first preset with that id, if any. */
  function FindById(presets: seq<ExamPreset>, id: string): (r: Option<ExamPreset>)
    ensures r.Some? ==> r.value in presets && r.value.id == id
    ensures r.None? <==> forall p :: p in presets ==> p.id != id
  {
    if presets == [] then None
    else if presets[0].id == id then Some(presets[0])
    else FindById(presets[1..], id)
  }

  /** `EXAM_PRESETS.filter(preset => preset.category === category)`, order kept. */
  function FilterByCategory(presets: seq<ExamPreset>, c: Category): (r: seq<ExamPreset>)
    ensures forall p :: p in r <==> p in presets && p.category == c
    ensures |r| <= |presets|
  {
    if presets == [] then []
    else if presets[0].category == c then [presets[0]] + FilterByCategory(presets[1..], c)
    else FilterByCategory(presets[1..], c)
  }

  /** The output contract a preset stands for is well formed. */
  predicate WellFormedPhoto(p: ExamPreset)
  {
    0 < p.width && 0 < p.height && 0 < p.minKB <= p.maxKB
    && p.aspectRatio == p.width as real / p.height as real
  }

  predicate WellFormedSignature(p: ExamPreset)
  {
    HasSignatureFields(p)
    && 0 < p.sigWidth.value && 0 < p.sigHeight.value
    && 0 < p.sigMinKB.value <= p.sigMaxKB.value
    && p.sigAspectRatio.value == p.sigWidth.value as real / p.sigHeight.value as real
  }

  /** Every preset: minKB <= maxKB and aspectRatio == width / height. */
  lemma PhotoContractsWellFormed()
    ensures forall i :: 0 <= i < |EXAM_PRESETS| ==> WellFormedPhoto(EXAM_PRESETS[i])
  {
  }

  /** Every exam preset has all five signature fields, consistent among themselves. */
  lemma ExamPresetsHaveSignature()
    ensures forall i :: 0 <= i < |EXAM_PRESETS| && EXAM_PRESETS[i].category == Exam ==>
              WellFormedSignature(EXAM_PRESETS[i])
  {
  }

  /** Passport presets carry no signature field. */
  lemma PassportPresetsHaveNoSignature()
    ensures forall i :: 0 <= i < |EXAM_PRESETS| && EXAM_PRESETS[i].category == Passport ==>
              HasNoSignatureFields(EXAM_PRESETS[i])
  {
  }

  /** Preset ids are pairwise distinct, so a lookup by id names one preset. */
  lemma IdsDistinct()
    ensures forall i, j :: 0 <= i < j < |EXAM_PRESETS| ==> EXAM_PRESETS[i].id != EXAM_PRESETS[j].id
  {
  }

  /** Only the ssc and ibps presets support the date strip. */
  lemma DateSupportOnlySscIbps()
    ensures forall i :: 0 <= i < |EXAM_PRESETS| ==>
              (TruthyBool(EXAM_PRESETS[i].supportsDate) <==> EXAM_PRESETS[i].id in {"ssc", "ibps"})
  {
  }

  /** The editor starts on the first preset, which is an exam preset. */
  lemma FirstPresetIsExam()
    ensures |EXAM_PRESETS| > 0 && EXAM_PRESETS[0].category == Exam
  {
  }

  /** Both categories have presets. */
  lemma CategoryPopulated(c: Category)
    ensures FilterByCategory(EXAM_PRESETS, c) != []
  {
    FirstOfEachCategory();
  }

  /** Both categories have at least one preset; the first exam preset is UPSC and the first
      passport preset is the generic passport. */
  lemma FirstOfEachCategory()
    ensures FilterByCategory(EXAM_PRESETS, Exam) != [] && FilterByCategory(EXAM_PRESETS, Exam)[0] == UPSC
    ensures FilterByCategory(EXAM_PRESETS, Passport) != [] && FilterByCategory(EXAM_PRESETS, Passport)[0] == GENERIC_PASSPORT
  {
    FilterSkipsPrefix(EXAM_PRESETS, Passport, 5);
    assert EXAM_PRESETS[5..] == [GENERIC_PASSPORT, VISA_STANDARD];
  }

  /** Presets of another category before position `k` do not appear in the filtered list. */
  lemma {:induction false} FilterSkipsPrefix(presets: seq<ExamPreset>, c: Category, k: nat)
    requires k <= |presets|
    requires forall i :: 0 <= i < k ==> presets[i].category != c
    ensures FilterByCategory(presets, c) == FilterByCategory(presets[k..], c)
  {
    if k > 0 {
      assert presets[1..][k - 1..] == presets[k..];
      FilterSkipsPrefix(presets[1..], c, k - 1);
    }
  }

  /** Filtering distributes over concatenation, and (`FilterByCategoryOne`) a single preset
      is kept exactly when it is of the category: the filtered list keeps the presets of the
      category in table order. */
  lemma {:induction false} FilterByCategoryKeepsOrder(a: seq<ExamPreset>, b: seq<ExamPreset>, c: Category)
    ensures FilterByCategory(a + b, c) == FilterByCategory(a, c) + FilterByCategory(b, c)
  {
    if a == [] {
      assert a + b == b;
    } else {
      var ab := a + b;
      assert ab[0] == a[0] && ab[1..] == a[1..] + b;
      FilterByCategoryKeepsOrder(a[1..], b, c);
    }
  }

  lemma FilterByCategoryOne(p: ExamPreset, c: Category)
    ensures FilterByCategory([p], c) == (if p.category == c then [p] else [])
  {
    assert [p][1..] == [];
  }

  /** A successful lookup by id returns the one preset carrying that id. */
  lemma {:induction false} FindByIdUnique(id: string, i: int)
    requires 0 <= i < |EXAM_PRESETS| && EXAM_PRESETS[i].id == id
    ensures FindById(EXAM_PRESETS, id) == Some(EXAM_PRESETS[i])
  {
    IdsDistinct();
  }
}
